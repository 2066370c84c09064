/**
 * The catalog entry (`Paint`) and its two enumerated tags. A paint's
 * identity is the key `(brandRaw, range, manufacturerCode)`; `type`, `name`
 * and `barcode` are descriptive.
 */
module PaintModel {
  import opened Wrappers

  /** Paint brands. The brand enum is not part of this model: these are the
    * labels the app's sample file and form defaults show, plus `other`. */
  datatype PaintBrand = Vallejo | AKInteractive | OtherBrand

  /** Paint types, likewise a stand-in label set with `other`. */
  datatype PaintType = Base | AcrylicColor | OtherType

  function BrandRaw(b: PaintBrand): string {
    match b
    case Vallejo => "Vallejo"
    case AKInteractive => "AK Interactive"
    case OtherBrand => "Other"
  }

  function TypeRaw(t: PaintType): string {
    match t
    case Base => "Base"
    case AcrylicColor => "Acrylic Color"
    case OtherType => "Other"
  }

  /** `PaintBrand(rawValue: s) ?? .other`: an exact, case-sensitive label
    * match, and `other` for any text that is no label. */
  function BrandFromRaw(s: string): (b: PaintBrand)
    ensures BrandRaw(b) == s || b == OtherBrand
    ensures (forall c :: BrandRaw(c) != s) ==> b == OtherBrand
  {
    if s == "Vallejo" then Vallejo
    else if s == "AK Interactive" then AKInteractive
    else OtherBrand
  }

  /** `PaintType(rawValue: s) ?? .other`. */
  function TypeFromRaw(s: string): (t: PaintType)
    ensures TypeRaw(t) == s || t == OtherType
    ensures (forall c :: TypeRaw(c) != s) ==> t == OtherType
  {
    if s == "Base" then Base
    else if s == "Acrylic Color" then AcrylicColor
    else OtherType
  }

  /** Decoding a stored label gives the tag back. */
  lemma BrandRoundTrip(b: PaintBrand)
    ensures BrandFromRaw(BrandRaw(b)) == b
  {
  }

  lemma TypeRoundTrip(t: PaintType)
    ensures TypeFromRaw(TypeRaw(t)) == t
  {
  }

  /** The identity key of a catalog entry. */
  datatype Key = Key(brandRaw: string, range: string, code: string)

  /** A stored `Paint`. `id` stands for the object's identity in the store. */
  datatype PaintRec = PaintRec(
    id: nat,
    brandRaw: string,
    range: string,
    typeRaw: string,
    code: string,
    name: string,
    barcode: Option<string>)

  function KeyOf(p: PaintRec): Key {
    Key(p.brandRaw, p.range, p.code)
  }

  /** The computed `paint.brand` and `paint.type`. */
  function BrandOf(p: PaintRec): PaintBrand { BrandFromRaw(p.brandRaw) }
  function TypeOf(p: PaintRec): PaintType { TypeFromRaw(p.typeRaw) }

  /** `Paint(brand:range:type:manufacturerCode:name:barcode:)`: every argument
    * is stored as given, with no trimming or case change, and `barcode`
    * defaults to nil. */
  function NewPaint(id: nat, brand: PaintBrand, range: string, ptype: PaintType,
                    code: string, name: string, barcode: Option<string> := None): (p: PaintRec)
    ensures p.id == id
    ensures BrandOf(p) == brand && TypeOf(p) == ptype
    ensures KeyOf(p) == Key(BrandRaw(brand), range, code)
    ensures p.name == name && p.barcode == barcode
  {
    PaintRec(id, BrandRaw(brand), range, TypeRaw(ptype), code, name, barcode)
  }
}

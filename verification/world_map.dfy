/** The partner map: every country shape is hidden, drawn as a partner in its own
    colour, or drawn as a neutral European country. */
module WorldMap {
  import opened Wrappers
  import opened Text

  datatype Partner = Partner(country: string, color: string)

  /** The partner countries and their colours. */
  const Partners: seq<Partner> := [
    Partner("pl", "#daa520"),
    Partner("de", "#3e5c76"),
    Partner("lu", "#008080"),
    Partner("ie", "#ffd700"),
    Partner("sa", "#708090"),
    Partner("ae", "#333333")
  ]

  /** The European Union codes listed as visible. Germany, Ireland and Poland are not
      among them. */
  const EuCodes: seq<string> := [
    "at", "be", "bg", "hr", "cy", "cz", "dk", "ee", "es", "fi", "fr", "gr", "hu", "it",
    "lt", "lv", "mt", "nl", "pt", "ro", "se", "si", "sk", "lu"
  ]

  /** `[...data.map(d => d.country), ...EU codes]` */
  const Visible: seq<string> := Codes(Partners) + EuCodes

  function Codes(entries: seq<Partner>): (r: seq<string>)
    ensures |r| == |entries|
    ensures forall i :: 0 <= i < |entries| ==> r[i] == entries[i].country
  {
    if entries == [] then [] else [entries[0].country] + Codes(entries[1..])
  }

  datatype Cursor = Pointer | Default

  /** The style returned for one shape. `Hidden` stands for `display: none`, the
      default cursor and no pointer events; `Shown` carries the fill, the stroke, the
      stroke width and the cursor. */
  datatype Style = Hidden | Shown(fill: string, stroke: string, strokeWidth: real, cursor: Cursor)

  const PartnerStroke := "#1a1a2e"
  const NeutralStyle := Shown("#e2e2e2", "#ccc", 0.5, Default)

  /** `data.find(d => d.country.toLowerCase() === code)`: the first entry whose code,
      lowered, is `code`. */
  function FindPartner(entries: seq<Partner>, code: string): (r: Option<Partner>)
    ensures r.Some? ==> r.value in entries && AsciiLower(r.value.country) == code
    ensures r.None? <==> forall i :: 0 <= i < |entries| ==> AsciiLower(entries[i].country) != code
  {
    if entries == [] then None
    else if AsciiLower(entries[0].country) == code then Some(entries[0])
    else FindPartner(entries[1..], code)
  }

  /** `styleFunction(geo)` for the shape of `countryCode`, compared in lower case. */
  function StyleFor(countryCode: string): (r: Style)
    ensures r.Hidden? <==> AsciiLower(countryCode) !in Visible
    ensures r.Shown? && FindPartner(Partners, AsciiLower(countryCode)).None? ==>
      r == NeutralStyle
    ensures r.Shown? && FindPartner(Partners, AsciiLower(countryCode)).Some? ==>
      r == Shown(FindPartner(Partners, AsciiLower(countryCode)).value.color,
                 PartnerStroke, 1.2, Pointer)
  {
    var code := AsciiLower(countryCode);
    var country := FindPartner(Partners, code);
    if code !in Visible then Hidden
    else match country
      case Some(p) => Shown(p.color, PartnerStroke, 1.2, Pointer)
      case None => NeutralStyle
  }

  /** The classification ignores case: a code and its lower-case form look the same. */
  lemma StyleIgnoresCase(countryCode: string)
    ensures StyleFor(AsciiLower(countryCode)) == StyleFor(countryCode)
  {
    AsciiLowerIdempotent(countryCode);
  }

  /** The partner codes are lower-case and pairwise different. */
  lemma PartnerCodes()
    ensures forall i :: 0 <= i < |Partners| ==> AsciiLower(Partners[i].country) == Partners[i].country
    ensures forall i, j :: 0 <= i < j < |Partners| ==> Partners[i].country != Partners[j].country
  {
    forall i | 0 <= i < |Partners|
      ensures AsciiLower(Partners[i].country) == Partners[i].country
    {
      AsciiLowerOfLower(Partners[i].country);
    }
  }

  /** The lookup of an entry's own code, in a table of lower-case distinct codes, finds
      that entry. */
  lemma {:induction false} FindsOwnEntry(entries: seq<Partner>, i: int)
    requires 0 <= i < |entries|
    requires forall k :: 0 <= k < |entries| ==> AsciiLower(entries[k].country) == entries[k].country
    requires forall k, l :: 0 <= k < l < |entries| ==> entries[k].country != entries[l].country
    ensures FindPartner(entries, entries[i].country) == Some(entries[i])
  {
    if i > 0 {
      assert entries[0].country != entries[i].country;
      FindsOwnEntry(entries[1..], i - 1);
    }
  }

  /** Every partner is shown, in its own colour with the dark stroke and the pointer
      cursor, however its code is cased. */
  lemma PartnersShown(i: int, countryCode: string)
    requires 0 <= i < |Partners|
    requires AsciiLower(countryCode) == Partners[i].country
    ensures StyleFor(countryCode) == Shown(Partners[i].color, PartnerStroke, 1.2, Pointer)
  {
    PartnerCodes();
    FindsOwnEntry(Partners, i);
    assert Visible[i] == Partners[i].country;
  }

  /** Germany, Ireland and Poland are partners left out of the European list ... */
  lemma GermanyOutsideTheList()
    ensures "de" !in EuCodes
  {
  }

  lemma IrelandOutsideTheList()
    ensures "ie" !in EuCodes
  {
  }

  lemma PolandOutsideTheList()
    ensures "pl" !in EuCodes
  {
  }

  /** ... and are shown all the same, since the visible list starts with the partner
      codes. */
  lemma PartnersOutsideShown()
    ensures StyleFor("de").Shown? && StyleFor("ie").Shown? && StyleFor("pl").Shown?
  {
    PartnerCodes();
    PartnersShown(0, Partners[0].country);
    PartnersShown(1, Partners[1].country);
    PartnersShown(3, Partners[3].country);
  }

  /** A code that names no partner is drawn neutral when it is on the European list and
      hidden otherwise. */
  lemma NonPartnerStyle(countryCode: string)
    requires forall i :: 0 <= i < |Partners| ==> AsciiLower(countryCode) != Partners[i].country
    ensures StyleFor(countryCode) == if AsciiLower(countryCode) in EuCodes then NeutralStyle else Hidden
  {
    PartnerCodes();
  }
}

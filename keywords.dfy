/** The two keyword taggers: `guess_sector` (2l_app.py:80-96) and
    `detect_type` (2l_app.py:98-118). Each scans an ordered keyword table and
    returns the label of the first keyword found in the text. */
module Keywords {
  import opened Text

  /** `sector_keywords`, in the insertion order of the dict literal. */
  const SectorKeywords: seq<(string, string)> := [
    ("Pharma", "Healthcare"),
    ("Chemical", "Specialty Chemicals"),
    ("Bank", "Financials"),
    ("Power", "Energy"),
    ("Steel", "Metals"),
    ("Auto", "Automobile"),
    ("IT", "Technology"),
    ("Software", "Technology"),
    ("Retail", "Consumer"),
    ("FMCG", "Consumer Staples")
  ]

  /** `tag_keywords`, in the insertion order of the dict literal. */
  const TypeKeywords: seq<(string, string)> := [
    ("expansion", "Expansion"),
    ("capex", "Capex"),
    ("dividend", "Dividend"),
    ("merger", "M&A"),
    ("acquisition", "M&A"),
    ("order", "Order Win"),
    ("contract", "Order Win"),
    ("result", "Financial Result"),
    ("profit", "Financial Result"),
    ("loss", "Financial Result"),
    ("plant", "Infra/Capacity"),
    ("bonus", "Bonus/Split"),
    ("buyback", "Buyback"),
    ("joint venture", "JV/Partnership")
  ]

  /** Entry `i` is the first entry of `table` whose key occurs in `hay`. */
  ghost predicate FirstHit(table: seq<(string, string)>, hay: string, i: nat) {
    i < |table| && Occurs(table[i].0, hay) &&
    forall j :: 0 <= j < i ==> !Occurs(table[j].0, hay)
  }

  /** No key of `table` occurs in `hay`. */
  ghost predicate NoHit(table: seq<(string, string)>, hay: string) {
    forall j :: 0 <= j < |table| ==> !Occurs(table[j].0, hay)
  }

  /** Index of the first entry at or after `i` whose key occurs in `hay`. */
  function HitFrom(table: seq<(string, string)>, hay: string, i: nat): (r: Option<nat>)
    requires i <= |table|
    decreases |table| - i
    ensures r.Some? ==> i <= r.value < |table| && Occurs(table[r.value].0, hay) &&
                        forall j :: i <= j < r.value ==> !Occurs(table[j].0, hay)
    ensures r.None? ==> forall j :: i <= j < |table| ==> !Occurs(table[j].0, hay)
  {
    if i == |table| then None
    else if Occurs(table[i].0, hay) then Some(i)
    else HitFrom(table, hay, i + 1)
  }

  /** The label of the first entry, in table order, whose key occurs in `hay`,
      or `fallback` when no key does. */
  function Lookup(table: seq<(string, string)>, hay: string, fallback: string): (r: string)
    ensures (exists i: nat :: FirstHit(table, hay, i) && r == table[i].1) ||
            (NoHit(table, hay) && r == fallback)
  {
    match HitFrom(table, hay, 0)
    case Some(i) => assert FirstHit(table, hay, i); table[i].1
    case None => fallback
  }

  /** The table with every key lower-cased (`k.lower()`). */
  function LowerKeys(table: seq<(string, string)>): (r: seq<(string, string)>)
    ensures |r| == |table|
    ensures forall i :: 0 <= i < |table| ==> r[i] == (Lower(table[i].0), table[i].1)
  {
    seq(|table|, i requires 0 <= i < |table| => (Lower(table[i].0), table[i].1))
  }

  /** The sector `guess_sector` reports. */
  function Sector(text: string): string {
    Lookup(LowerKeys(SectorKeywords), Lower(text), "Unknown")
  }

  /** The announcement type `detect_type` reports. */
  function AnnouncementType(text: string): string {
    Lookup(TypeKeywords, Lower(text), "General")
  }

  /** Tagging ignores case: both tags are those of the lower-cased text. */
  lemma CaseInsensitive(text: string)
    ensures Sector(Lower(text)) == Sector(text)
    ensures AnnouncementType(Lower(text)) == AnnouncementType(text)
  {
    LowerTwice(text);
  }

  /** guess_sector: scan the table in order and return the first hit's label. */
  method GuessSector(text: string) returns (sector: string)
    ensures sector == Sector(text)
  {
    var t := Lower(text);
    ghost var table := LowerKeys(SectorKeywords);
    for i := 0 to |SectorKeywords|
      invariant forall j :: 0 <= j < i ==> !Occurs(table[j].0, t)
    {
      var (k, v) := SectorKeywords[i];
      if Occurs(Lower(k), t) {
        assert FirstHit(table, t, i);
        return v;
      }
    }
    return "Unknown";
  }

  /** detect_type: scan the table in order and return the first hit's label. */
  method DetectType(text: string) returns (kind: string)
    ensures kind == AnnouncementType(text)
  {
    var t := Lower(text);
    for i := 0 to |TypeKeywords|
      invariant forall j :: 0 <= j < i ==> !Occurs(TypeKeywords[j].0, t)
    {
      var (k, v) := TypeKeywords[i];
      if Occurs(k, t) {
        assert FirstHit(TypeKeywords, t, i);
        return v;
      }
    }
    return "General";
  }

  /** Every result of `Lookup` is a label of the table or the fallback. */
  lemma {:induction false} LookupLabel(table: seq<(string, string)>, hay: string, fallback: string,
                                       labels: set<string>)
    requires forall i :: 0 <= i < |table| ==> table[i].1 in labels
    ensures Lookup(table, hay, fallback) in labels + {fallback}
  {
    match HitFrom(table, hay, 0)
    case Some(i) =>
    case None =>
  }

  const SectorLabels: set<string> := {"Healthcare", "Specialty Chemicals", "Financials", "Energy",
                                      "Metals", "Automobile", "Technology", "Consumer",
                                      "Consumer Staples"}

  const TypeLabels: set<string> := {"Expansion", "Capex", "Dividend", "M&A", "Order Win",
                                    "Financial Result", "Infra/Capacity", "Bonus/Split",
                                    "Buyback", "JV/Partnership"}

  /** The sector is one of the table's sectors, or "Unknown". */
  lemma SectorIsListed(text: string)
    ensures Sector(text) in SectorLabels + {"Unknown"}
  {
    var table := LowerKeys(SectorKeywords);
    assert forall i :: 0 <= i < |table| ==> table[i].1 == SectorKeywords[i].1;
    assert forall i :: 0 <= i < |SectorKeywords| ==> SectorKeywords[i].1 in SectorLabels;
    LookupLabel(table, Lower(text), "Unknown", SectorLabels);
  }

  /** The announcement type is one of the table's types, or "General". */
  lemma AnnouncementTypeIsListed(text: string)
    ensures AnnouncementType(text) in TypeLabels + {"General"}
  {
    assert forall i :: 0 <= i < |TypeKeywords| ==> TypeKeywords[i].1 in TypeLabels;
    LookupLabel(TypeKeywords, Lower(text), "General", TypeLabels);
  }

  /** Table order decides: a text naming a bank but no pharma or chemical
      business is "Financials", whatever later keywords ("steel", …) it holds. */
  lemma BankBeforeLaterKeywords(text: string)
    requires Occurs("bank", Lower(text))
    requires !Occurs("pharma", Lower(text)) && !Occurs("chemical", Lower(text))
    ensures Sector(text) == "Financials"
  {
    var t := Lower(text);
    var table := LowerKeys(SectorKeywords);
    assert table[0].0 == "pharma" && table[1].0 == "chemical" && table[2].0 == "bank";
    assert HitFrom(table, t, 2) == Some(2);
  }

  /** "Bank and Steel" is tagged "Financials": "Bank" precedes "Steel" in the table. */
  lemma BankAndSteel()
    ensures Sector("Bank and Steel") == "Financials"
  {
    var t := Lower("Bank and Steel");
    assert t == "bank and steel";
    assert MatchesAt(t, "bank", 0);
    AbsentFirstChar("pharma", t);
    AbsentFirstChar("chemical", t);
    BankBeforeLaterKeywords("Bank and Steel");
  }

  /** Matching is by substring, not by word: the key "IT" is found inside
      "unit", so a text about a new unit, naming none of the six keys before
      "IT", is tagged "Technology". */
  lemma ItInsideWord()
    ensures Sector("New unit") == "Technology"
  {
    var t := Lower("New unit");
    var table := LowerKeys(SectorKeywords);
    assert t == "new unit";
    assert table[6].0 == "it";
    assert MatchesAt(t, "it", 6);
    assert forall j :: 0 <= j < 6 ==> table[j].0[0] !in t;
    forall j | 0 <= j < 6 ensures !Occurs(table[j].0, t) {
      AbsentFirstChar(table[j].0, t);
    }
    assert HitFrom(table, t, 6) == Some(6);
  }

  /** A text holding none of the type keywords is "General". */
  lemma NoTypeKeywordIsGeneral(text: string)
    requires forall i :: 0 <= i < |TypeKeywords| ==> !Occurs(TypeKeywords[i].0, Lower(text))
    ensures AnnouncementType(text) == "General"
  {
  }
}

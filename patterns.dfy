/** The three regular-expression searches of the tag helpers, each written as
    an explicit leftmost-match scanner: `extract_symbol` (2l_app.py:120-127),
    `extract_date_from_url` (2l_app.py:129-134) and `extract_company`
    (2l_app.py:76-78).

    `re.search` tries the pattern at positions 0, 1, 2, … of the subject and
    reports the match at the first position where the pattern matches; a
    pattern tried at one position is a function `At(s, p)` returning what
    the match captured, or `None`. For each pattern, a reference predicate
    describes the matches at a position independently of how the scanner
    finds them, and a lemma ties the two together. */
module Patterns {
  import opened Text

  /** re.search: the first position `p >= i` at which `at` matches, paired
      with what it captured. */
  function Leftmost<T>(at: (string, nat) -> Option<T>, s: string, i: nat): (r: Option<(nat, T)>)
    requires i <= |s|
    decreases |s| - i
    ensures r.Some? ==> i <= r.value.0 <= |s| && at(s, r.value.0) == Some(r.value.1)
    ensures r.Some? ==> forall j :: i <= j < r.value.0 ==> at(s, j).None?
    ensures r.None? ==> forall j :: i <= j <= |s| ==> at(s, j).None?
  {
    match at(s, i)
    case Some(v) => Some((i, v))
    case None => if i == |s| then None else Leftmost(at, s, i + 1)
  }

  /** Length of the longest run of characters of class `cls` starting at `i`
      (what a greedy `cls+` or `cls*` consumes there). */
  function Run(s: string, i: nat, cls: char -> bool): (n: nat)
    requires i <= |s|
    decreases |s| - i
    ensures i + n <= |s|
    ensures forall k :: i <= k < i + n ==> cls(s[k])
    ensures i + n < |s| ==> !cls(s[i + n])
  {
    if i < |s| && cls(s[i]) then 1 + Run(s, i + 1, cls) else 0
  }

  /** A run is exactly as long as the stretch of `cls` characters that the
      end of the subject or another character closes. */
  lemma RunExact(s: string, i: nat, m: nat, cls: char -> bool)
    requires i + m <= |s|
    requires forall k :: i <= k < i + m ==> cls(s[k])
    requires i + m == |s| || !cls(s[i + m])
    ensures Run(s, i, cls) == m
  {
  }

  predicate AllUpper(g: string) { forall k :: 0 <= k < |g| ==> IsUpper(g[k]) }

  // ---------------------------------------------------------------- symbol

  /** At most this many letters form a symbol (`{1,10}`). */
  const MaxSymbol := 10

  /** `/([A-Z]{1,10})_` tried at `p`: the group, when it matches. Shortening
      the run of capitals never helps, because a capital cannot be the '_'
      that must follow, so the run itself must be 1 to 10 long and closed
      by '_'. */
  function UrlSymbolAt(s: string, p: nat): (r: Option<string>)
    ensures r.Some? ==> 1 <= |r.value| <= MaxSymbol && AllUpper(r.value)
  {
    if p < |s| && s[p] == '/' then
      var n := Run(s, p + 1, IsUpper);
      if 1 <= n <= MaxSymbol && p + 1 + n < |s| && s[p + 1 + n] == '_' then
        Some(s[p + 1..p + 1 + n])
      else None
    else None
  }

  /** Reference: `s` holds '/', then the capitals `g` (1 to 10 of them),
      then '_', starting at `p`. */
  ghost predicate UrlSymbolMatch(s: string, p: nat, g: string) {
    p + |g| + 2 <= |s| && s[p] == '/' && 1 <= |g| <= MaxSymbol && AllUpper(g) &&
    s[p + 1..p + 1 + |g|] == g && s[p + 1 + |g|] == '_'
  }

  lemma UrlSymbolAtMatches(s: string, p: nat, g: string)
    ensures UrlSymbolAt(s, p) == Some(g) <==> UrlSymbolMatch(s, p, g)
  {
    if UrlSymbolMatch(s, p, g) {
      RunExact(s, p + 1, |g|, IsUpper);
    }
  }

  /** `[:\s]`: a colon or a whitespace character. */
  predicate IsSep(c: char) { c == ':' || IsSpace(c) }

  /** `BSE[:\s]+([A-Z]{1,10})` tried at `p`: the group, when it matches. The
      colons and blanks are taken greedily (a capital cannot be one of
      them), and the group keeps up to 10 of the capitals that follow. */
  function BseSymbolAt(s: string, p: nat): (r: Option<string>)
    ensures r.Some? ==> 1 <= |r.value| <= MaxSymbol && AllUpper(r.value)
  {
    if MatchesAt(s, "BSE", p) then
      var m := Run(s, p + 3, IsSep);
      var n := Run(s, p + 3 + m, IsUpper);
      if m >= 1 && n >= 1 then Some(s[p + 3 + m..p + 3 + m + Min(n, MaxSymbol)]) else None
    else None
  }

  /** Reference: "BSE" at `p`, one or more colons or blanks up to `k`, and
      the capitals `g` at `k`, as many as the greedy `{1,10}` takes: ten, or
      all of them up to the next non-capital. */
  ghost predicate BseSymbolMatch(s: string, p: nat, k: nat, g: string) {
    MatchesAt(s, "BSE", p) && p + 3 < k <= |s| &&
    (forall i :: p + 3 <= i < k ==> IsSep(s[i])) &&
    MatchesAt(s, g, k) && 1 <= |g| <= MaxSymbol && AllUpper(g) &&
    (|g| == MaxSymbol || k + |g| == |s| || !IsUpper(s[k + |g|]))
  }

  lemma BseSymbolAtMatches(s: string, p: nat, k: nat, g: string)
    requires BseSymbolMatch(s, p, k, g)
    ensures BseSymbolAt(s, p) == Some(g)
  {
    RunExact(s, p + 3, k - (p + 3), IsSep);
    var n := Run(s, k, IsUpper);
    assert n >= |g|;
    assert s[k..k + |g|] == g;
  }

  lemma {:induction false} BseSymbolAtSound(s: string, p: nat) returns (k: nat)
    requires BseSymbolAt(s, p).Some?
    ensures BseSymbolMatch(s, p, k, BseSymbolAt(s, p).value)
  {
    var m := Run(s, p + 3, IsSep);
    k := p + 3 + m;
  }

  /** `extract_symbol`: the capitals of the first `/XYZ_` in the link;
      otherwise those after the first "BSE:" marker in the text; otherwise
      "Unknown". */
  function ExtractSymbol(url: string, text: string): (r: string)
    ensures r == "Unknown" || (1 <= |r| <= MaxSymbol && AllUpper(r))
  {
    match Leftmost(UrlSymbolAt, url, 0)
    case Some((_, g)) => g
    case None =>
      match Leftmost(BseSymbolAt, text, 0)
      case Some((_, g)) => g
      case None => "Unknown"
  }

  /** A link match takes precedence: whatever the text says, the result is
      the group of the leftmost `/XYZ_` of the link. */
  lemma SymbolFromUrl(url: string, text: string, p: nat, g: string)
    requires UrlSymbolMatch(url, p, g)
    requires forall p': nat, g' :: p' < p ==> !UrlSymbolMatch(url, p', g')
    ensures ExtractSymbol(url, text) == g
  {
    UrlSymbolAtMatches(url, p, g);
    var first := Leftmost(UrlSymbolAt, url, 0);
    assert first.Some?;
    UrlSymbolAtMatches(url, first.value.0, first.value.1);
  }

  /** Without a link match, the result is the group of the leftmost BSE
      marker of the text. */
  lemma SymbolFromText(url: string, text: string, p: nat, k: nat, g: string)
    requires forall p': nat, g' :: !UrlSymbolMatch(url, p', g')
    requires BseSymbolMatch(text, p, k, g)
    requires forall p': nat, k': nat, g' :: p' < p ==> !BseSymbolMatch(text, p', k', g')
    ensures ExtractSymbol(url, text) == g
  {
    var firstUrl := Leftmost(UrlSymbolAt, url, 0);
    if firstUrl.Some? {
      UrlSymbolAtMatches(url, firstUrl.value.0, firstUrl.value.1);
      assert false;
    }
    BseSymbolAtMatches(text, p, k, g);
    var first := Leftmost(BseSymbolAt, text, 0);
    assert first.Some?;
    var p0 := first.value.0;
    if p0 < p {
      var k0 := BseSymbolAtSound(text, p0);
      assert false;
    }
    assert p0 == p;
  }

  /** "Unknown" exactly when neither pattern matches anywhere. */
  lemma SymbolUnknown(url: string, text: string)
    ensures ExtractSymbol(url, text) == "Unknown" <==>
            (forall p: nat, g :: !UrlSymbolMatch(url, p, g)) &&
            (forall p: nat, k: nat, g :: !BseSymbolMatch(text, p, k, g))
  {
    var firstUrl := Leftmost(UrlSymbolAt, url, 0);
    var first := Leftmost(BseSymbolAt, text, 0);
    if firstUrl.Some? {
      UrlSymbolAtMatches(url, firstUrl.value.0, firstUrl.value.1);
      assert "Unknown"[1] == 'n';
    } else if first.Some? {
      var k := BseSymbolAtSound(text, first.value.0);
      assert "Unknown"[1] == 'n';
    } else {
      forall p, g | UrlSymbolMatch(url, p, g) ensures false {
        UrlSymbolAtMatches(url, p, g);
      }
      forall p, k, g | BseSymbolMatch(text, p, k, g) ensures false {
        BseSymbolAtMatches(text, p, k, g);
      }
    }
  }

  /** A link without '_' never supplies the symbol. */
  lemma NoUnderscoreNoUrlSymbol(url: string)
    requires '_' !in url
    ensures forall p: nat, g :: !UrlSymbolMatch(url, p, g)
  {
  }

  /** Only capitals are taken: "BSE: ABC123" gives "ABC". */
  lemma BseStopsAtDigits()
    ensures ExtractSymbol("https://example.com/filing.pdf", "BSE: ABC123") == "ABC"
  {
    var url := "https://example.com/filing.pdf";
    var text := "BSE: ABC123";
    NoUnderscoreNoUrlSymbol(url);
    assert text[3] == ':' && text[4] == ' ' && text[8] == '1';
    assert MatchesAt(text, "BSE", 0);
    assert MatchesAt(text, "ABC", 5);
    assert BseSymbolMatch(text, 0, 5, "ABC");
    SymbolFromText(url, text, 0, 5, "ABC");
  }

  // ------------------------------------------------------------------ date

  /** `s[i..i+n]` exists and is all digits (`\d{n}`). */
  predicate Digits(s: string, i: nat, n: nat) {
    i + n <= |s| && forall k :: i <= k < i + n ==> IsDigit(s[k])
  }

  /** `[-/]` */
  predicate IsDateSep(c: char) { c == '-' || c == '/' }

  /** `[-/]?` at `i`, greedy: past the separator when there is one. */
  function SkipDateSep(s: string, i: nat): (j: nat)
    ensures j == i || j == i + 1
  {
    if i < |s| && IsDateSep(s[i]) then i + 1 else i
  }

  /** `y-m-d` from the digit groups at `p`, `a` and `b`. */
  function DateText(s: string, p: nat, a: nat, b: nat): (r: string)
    requires p + 4 <= |s| && a + 2 <= |s| && b + 2 <= |s|
    ensures |r| == 10 && r[4] == '-' && r[7] == '-'
  {
    s[p..p + 4] + "-" + s[a..a + 2] + "-" + s[b..b + 2]
  }

  /** `(\d{4})[-/]?(\d{2})[-/]?(\d{2})` tried at `p`, formatted as `y-m-d`.
      Dropping a separator the greedy `?` took never helps, because a
      separator is not the digit that would then be needed. */
  function DateAt(s: string, p: nat): (r: Option<string>)
    ensures r.Some? ==> |r.value| == 10
  {
    if Digits(s, p, 4) then
      var a := SkipDateSep(s, p + 4);
      if Digits(s, a, 2) then
        var b := SkipDateSep(s, a + 2);
        if Digits(s, b, 2) then Some(DateText(s, p, a, b)) else None
      else None
    else None
  }

  /** Reference: the pattern matches at `p` with its month digits at `a`
      and its day digits at `b`, each group either right after the previous
      one or after one separator. */
  ghost predicate DateMatch(s: string, p: nat, a: nat, b: nat) {
    Digits(s, p, 4) && Digits(s, a, 2) && Digits(s, b, 2) &&
    (a == p + 4 || (a == p + 5 && IsDateSep(s[p + 4]))) &&
    (b == a + 2 || (b == a + 3 && IsDateSep(s[a + 2])))
  }

  /** A match at a position is unique, and it is what `DateAt` reports. */
  lemma DateAtMatches(s: string, p: nat, a: nat, b: nat)
    requires DateMatch(s, p, a, b)
    ensures DateAt(s, p) == Some(DateText(s, p, a, b))
  {
    assert IsDateSep(s[p + 4]) ==> !IsDigit(s[p + 4]);
    assert IsDateSep(s[a + 2]) ==> !IsDigit(s[a + 2]);
  }

  lemma DateAtSound(s: string, p: nat) returns (a: nat, b: nat)
    requires DateAt(s, p).Some?
    ensures DateMatch(s, p, a, b) && DateAt(s, p) == Some(DateText(s, p, a, b))
  {
    a := SkipDateSep(s, p + 4);
    b := SkipDateSep(s, a + 2);
  }

  /** The shape of a reported date: ten characters, '-' at 4 and 7 and
      digits copied from the link everywhere else. */
  lemma DateTextShape(s: string, p: nat, a: nat, b: nat)
    requires DateMatch(s, p, a, b)
    ensures var d := DateText(s, p, a, b);
      |d| == 10 && d[4] == '-' && d[7] == '-' &&
      (forall k :: 0 <= k < 10 && k != 4 && k != 7 ==> IsDigit(d[k])) &&
      d[..4] == s[p..p + 4] && d[5..7] == s[a..a + 2] && d[8..] == s[b..b + 2]
  {
    var d := DateText(s, p, a, b);
    var y, m, dd := s[p..p + 4], s[a..a + 2], s[b..b + 2];
    assert d == y + "-" + m + "-" + dd;
    assert d[..4] == y && d[5..7] == m && d[8..] == dd;
    forall k | 0 <= k < 10 && k != 4 && k != 7 ensures IsDigit(d[k]) {
      if k < 4 { assert d[k] == y[k] == s[p + k]; }
      else if k < 7 { assert d[k] == m[k - 5] == s[a + k - 5]; }
      else { assert d[k] == dd[k - 8] == s[b + k - 8]; }
    }
  }

  /** `extract_date_from_url`: the leftmost date-shaped run of digits of the
      link as `y-m-d`, or `today` when there is none. */
  function ExtractDate(url: string, today: string): (r: string)
    ensures r == today || (|r| == 10 && r[4] == '-' && r[7] == '-')
  {
    match Leftmost(DateAt, url, 0)
    case Some((_, d)) => d
    case None => today
  }

  /** With a match in the link, the result is the leftmost one. */
  lemma DateFromUrl(url: string, today: string, p: nat, a: nat, b: nat)
    requires DateMatch(url, p, a, b)
    requires forall p': nat, a': nat, b': nat :: p' < p ==> !DateMatch(url, p', a', b')
    ensures ExtractDate(url, today) == DateText(url, p, a, b)
  {
    DateAtMatches(url, p, a, b);
    var first := Leftmost(DateAt, url, 0);
    assert first.Some?;
    var p0 := first.value.0;
    assert p0 <= p;
    if p0 < p {
      var a0, b0 := DateAtSound(url, p0);
      assert false;
    }
    assert first.value.1 == DateText(url, p, a, b);
  }

  /** Without a match in the link, the result is the supplied date. */
  lemma DateDefault(url: string, today: string)
    requires forall p: nat, a: nat, b: nat :: !DateMatch(url, p, a, b)
    ensures ExtractDate(url, today) == today
  {
    var first := Leftmost(DateAt, url, 0);
    if first.Some? {
      var a, b := DateAtSound(url, first.value.0);
      assert false;
    }
  }

  /** Whatever the link, the result is the supplied date or a well-formed
      `y-m-d` copied from it. */
  lemma DateShape(url: string, today: string)
    ensures var d := ExtractDate(url, today);
      d == today ||
      (|d| == 10 && d[4] == '-' && d[7] == '-' &&
       forall k :: 0 <= k < 10 && k != 4 && k != 7 ==> IsDigit(d[k]))
  {
    var first := Leftmost(DateAt, url, 0);
    if first.Some? {
      var a, b := DateAtSound(url, first.value.0);
      DateTextShape(url, first.value.0, a, b);
    }
  }

  /** ".../2023-07-15/filing.pdf" is dated "2023-07-15", whatever the day. */
  lemma DashedDateInPath(url: string, today: string)
    requires url == ".../2023-07-15/filing.pdf"
    ensures ExtractDate(url, today) == "2023-07-15"
  {
    NoDateBefore(url);
    assert DateMatch(url, 4, 9, 12);
    DateFromUrl(url, today, 4, 9, 12);
    assert url[4..8] == "2023" && url[9..11] == "07" && url[12..14] == "15";
  }

  /** No date starts in the leading ".../" of the example path. */
  lemma NoDateBefore(url: string)
    requires url == ".../2023-07-15/filing.pdf"
    ensures forall p: nat, a: nat, b: nat :: p < 4 ==> !DateMatch(url, p, a, b)
  {
    assert url[0] == '.' && url[1] == '.' && url[2] == '.' && url[3] == '/';
    forall p: nat, a: nat, b: nat | p < 4 ensures !DateMatch(url, p, a, b) {
      assert !IsDigit(url[p]);
    }
  }

  // --------------------------------------------------------------- company

  /** The alternatives of `(?:Limited|Ltd|Industries|Corporation)`, in order. */
  const Suffixes: seq<string> := ["Limited", "Ltd", "Industries", "Corporation"]

  /** `[A-Z][a-z]+` tried at `p`: where the word ends. The lower-case run is
      taken whole, since what follows a word (a space) is never lower case. */
  function WordEnd(s: string, p: nat): (r: Option<nat>)
    ensures r.Some? ==> p + 2 <= r.value <= |s|
  {
    if p < |s| && IsUpper(s[p]) then
      var n := Run(s, p + 1, IsLower);
      if n >= 1 then Some(p + 1 + n) else None
    else None
  }

  /** One more iteration of `(?: [A-Z][a-z]+)*` after a word ending at `e`. */
  function NextWordEnd(s: string, e: nat): (r: Option<nat>)
    ensures r.Some? ==> e + 3 <= r.value <= |s|
  {
    if e < |s| && s[e] == ' ' then WordEnd(s, e + 1) else None
  }

  /** ` (?:Limited|Ltd|Industries|Corporation)` after a word ending at `e`:
      where the match ends, trying the alternatives in order. */
  function SuffixEnd(s: string, e: nat): (r: Option<nat>)
    ensures r.Some? ==> e + 1 < r.value <= |s|
  {
    if e < |s| && s[e] == ' ' then
      if MatchesAt(s, Suffixes[0], e + 1) then Some(e + 1 + |Suffixes[0]|)
      else if MatchesAt(s, Suffixes[1], e + 1) then Some(e + 1 + |Suffixes[1]|)
      else if MatchesAt(s, Suffixes[2], e + 1) then Some(e + 1 + |Suffixes[2]|)
      else if MatchesAt(s, Suffixes[3], e + 1) then Some(e + 1 + |Suffixes[3]|)
      else None
    else None
  }

  /** The rest of the pattern after a word ending at `e`, with the
      backtracking of the greedy star: first try one more word and the rest
      after it; only when that fails, the suffix right here. */
  function Tail(s: string, e: nat): (r: Option<nat>)
    requires e <= |s|
    decreases |s| - e
    ensures r.Some? ==> e + 1 < r.value <= |s|
  {
    match NextWordEnd(s, e)
    case Some(e') =>
      (match Tail(s, e')
       case Some(q) => Some(q)
       case None => SuffixEnd(s, e))
    case None => SuffixEnd(s, e)
  }

  /** The whole company pattern tried at `p`: where its match ends. */
  function CompanyAt(s: string, p: nat): (r: Option<nat>)
    ensures r.Some? ==> p < r.value <= |s|
  {
    match WordEnd(s, p)
    case Some(e) => Tail(s, e)
    case None => None
  }

  /** Reference: `s[p..e]` is capitalised words separated by single spaces
      (`[A-Z][a-z]+(?: [A-Z][a-z]+)*`): it starts with a capital and ends
      with a lower-case letter, holds only letters and spaces, a capital
      exactly where a space precedes, and a lower-case letter before every
      space. */
  ghost predicate WordChainIn(s: string, p: nat, e: nat) {
    p < e <= |s| && IsUpper(s[p]) && IsLower(s[e - 1]) &&
    (forall i :: p <= i < e ==> IsUpper(s[i]) || IsLower(s[i]) || s[i] == ' ') &&
    (forall i :: p < i < e ==> (IsUpper(s[i]) <==> s[i - 1] == ' ')) &&
    (forall i :: p < i < e ==> s[i] == ' ' ==> IsLower(s[i - 1]))
  }

  /** Reference: `s[p..q]` is a word chain `s[p..j]`, a space and one of the
      suffixes. */
  ghost predicate CompanySplit(s: string, p: nat, j: nat, q: nat) {
    WordChainIn(s, p, j) && j + 1 < q <= |s| && s[j] == ' ' && s[j + 1..q] in Suffixes
  }

  /** `s[p..q]` is a company name: a string the pattern matches in full. */
  ghost predicate CompanyNameAt(s: string, p: nat, q: nat) {
    exists j: nat :: CompanySplit(s, p, j, q)
  }

  /** A company name is a string the pattern matches from end to end. */
  ghost predicate IsCompanyName(r: string) {
    CompanyNameAt(r, 0, |r|)
  }

  /** A company name within `s` is one on its own. */
  lemma CompanyNameSlice(s: string, p: nat, j: nat, q: nat)
    requires CompanySplit(s, p, j, q)
    ensures CompanySplit(s[p..q], 0, j - p, q - p) && IsCompanyName(s[p..q])
  {
    var t := s[p..q];
    assert forall i :: 0 <= i < |t| ==> t[i] == s[p + i];
    assert t[j - p + 1..q - p] == s[j + 1..q];
    assert CompanySplit(t, 0, j - p, |t|);
  }

  /** The word `[A-Z][a-z]+` that `WordEnd` reads is a word chain of one
      word, and no lower-case letter follows it. */
  lemma WordEndChain(s: string, p: nat)
    requires WordEnd(s, p).Some?
    ensures WordChainIn(s, p, WordEnd(s, p).value)
    ensures WordEnd(s, p).value < |s| ==> !IsLower(s[WordEnd(s, p).value])
  {
  }

  /** One more star iteration extends the chain. */
  lemma ChainExtend(s: string, p: nat, e: nat)
    requires WordChainIn(s, p, e) && NextWordEnd(s, e).Some?
    ensures WordChainIn(s, p, NextWordEnd(s, e).value)
  {
    var e' := NextWordEnd(s, e).value;
    WordEndChain(s, e + 1);
    forall i | p < i < e' ensures IsUpper(s[i]) <==> s[i - 1] == ' ' {
      if i > e + 1 {
        assert IsLower(s[i]) && s[i - 1] != ' ';
      }
    }
  }

  /** `SuffixEnd` reads the suffix in full. */
  lemma SuffixEndSound(s: string, e: nat)
    requires SuffixEnd(s, e).Some?
    ensures s[e] == ' ' && s[e + 1..SuffixEnd(s, e).value] in Suffixes
  {
    var q := SuffixEnd(s, e).value;
    if MatchesAt(s, Suffixes[0], e + 1) { assert s[e + 1..q] == Suffixes[0]; }
    else if MatchesAt(s, Suffixes[1], e + 1) { assert s[e + 1..q] == Suffixes[1]; }
    else if MatchesAt(s, Suffixes[2], e + 1) { assert s[e + 1..q] == Suffixes[2]; }
    else { assert s[e + 1..q] == Suffixes[3]; }
  }

  /** What the tail matches after a word chain completes a company name. */
  lemma {:induction false} TailSound(s: string, p: nat, e: nat) returns (j: nat)
    requires e <= |s| && WordChainIn(s, p, e) && Tail(s, e).Some?
    decreases |s| - e
    ensures CompanySplit(s, p, j, Tail(s, e).value)
  {
    var next := NextWordEnd(s, e);
    if next.Some? && Tail(s, next.value).Some? {
      ChainExtend(s, p, e);
      j := TailSound(s, p, next.value);
    } else {
      SuffixEndSound(s, e);
      j := e;
    }
  }

  /** Whatever the pattern matches at `p` is a company name. */
  lemma CompanyAtSound(s: string, p: nat) returns (j: nat)
    requires CompanyAt(s, p).Some?
    ensures CompanySplit(s, p, j, CompanyAt(s, p).value)
  {
    WordEndChain(s, p);
    j := TailSound(s, p, WordEnd(s, p).value);
  }

  /** Inside the chain `s[p..j]`, the word starting at the capital `w` is
      read whole by `WordEnd`: it ends at `j` or at the space before the
      next word. */
  lemma ChainWord(s: string, p: nat, j: nat, w: nat)
    requires WordChainIn(s, p, j) && j < |s| && s[j] == ' '
    requires p <= w < j && IsUpper(s[w])
    ensures WordEnd(s, w).Some?
    ensures WordEnd(s, w).value <= j
    ensures WordEnd(s, w).value == j || s[WordEnd(s, w).value] == ' '
  {
    assert w + 1 < j;
    assert IsLower(s[w + 1]);
    var n := Run(s, w + 1, IsLower);
    var e := w + 1 + n;
    if e < j {
      assert IsLower(s[e - 1]);
    }
  }

  /** A suffix occurrence is what `SuffixEnd` reads, and it is itself a
      capitalised word. */
  lemma SuffixAt(s: string, j: nat, q: nat)
    requires j + 1 < q <= |s| && s[j] == ' ' && s[j + 1..q] in Suffixes
    ensures SuffixEnd(s, j) == Some(q)
    ensures IsUpper(s[j + 1]) && forall i :: j + 2 <= i < q ==> IsLower(s[i])
  {
    var w := s[j + 1..q];
    assert forall i :: j + 1 <= i < q ==> s[i] == w[i - (j + 1)];
    if w == Suffixes[0] {
    } else if w == Suffixes[1] {
      assert s[j + 2] == w[1];
      Mismatch(s, Suffixes[0], j + 1, 1);
    } else if w == Suffixes[2] {
      assert s[j + 1] == w[0];
      Mismatch(s, Suffixes[0], j + 1, 0);
      Mismatch(s, Suffixes[1], j + 1, 0);
    } else {
      assert s[j + 1] == w[0];
      Mismatch(s, Suffixes[0], j + 1, 0);
      Mismatch(s, Suffixes[1], j + 1, 0);
      Mismatch(s, Suffixes[2], j + 1, 0);
    }
  }

  /** From any word end `e` of the chain of a company name `s[p..q]`, the
      tail matches, and at least as far as `q`: the greedy star may only
      take the suffix as one more word and find a longer match. */
  lemma {:induction false} TailReaches(s: string, p: nat, j: nat, q: nat, e: nat)
    requires CompanySplit(s, p, j, q)
    requires p < e <= j && (e == j || s[e] == ' ')
    decreases j - e
    ensures Tail(s, e).Some? && Tail(s, e).value >= q
  {
    if e == j {
      SuffixAt(s, j, q);
      var next := NextWordEnd(s, j);
      if next.Some? {
        var n := Run(s, j + 2, IsLower);
        assert n >= q - (j + 2);
      }
    } else {
      assert IsLower(s[e - 1]);
      assert IsUpper(s[e + 1]);
      ChainWord(s, p, j, e + 1);
      TailReaches(s, p, j, q, NextWordEnd(s, e).value);
    }
  }

  /** Wherever a company name starts, the pattern matches there, and its
      match reaches at least as far as that name. */
  lemma CompanyAtComplete(s: string, p: nat, j: nat, q: nat)
    requires CompanySplit(s, p, j, q)
    ensures CompanyAt(s, p).Some? && CompanyAt(s, p).value >= q
  {
    ChainWord(s, p, j, p);
    TailReaches(s, p, j, q, WordEnd(s, p).value);
  }

  /** `extract_company`: the text of the leftmost match of the company
      pattern, or "Unknown". */
  function ExtractCompany(text: string): string {
    match Leftmost(CompanyAt, text, 0)
    case Some((p, q)) => text[p..q]
    case None => "Unknown"
  }

  /** A company name holds a space; "Unknown" does not. */
  lemma CompanyNameIsNotUnknown(s: string, p: nat, j: nat, q: nat)
    requires CompanySplit(s, p, j, q)
    ensures s[p..q] != "Unknown"
  {
    assert s[p..q][j - p] == ' ';
    assert ' ' !in "Unknown";
  }

  /** The leftmost match starts no later than any company name, and reaches
      at least as far as any company name starting where it does. */
  lemma LeftmostBeatsEveryName(text: string, p': nat, j': nat, q': nat)
    requires CompanySplit(text, p', j', q')
    ensures Leftmost(CompanyAt, text, 0).Some?
    ensures var (p, q) := Leftmost(CompanyAt, text, 0).value;
      p <= p' && (p' == p ==> q' <= q)
  {
    CompanyAtComplete(text, p', j', q');
  }

  /** A found company is the leftmost company name of the text and, of those
      starting there, the longest. */
  lemma CompanyFound(text: string) returns (p: nat, q: nat)
    requires ExtractCompany(text) != "Unknown"
    ensures CompanyNameAt(text, p, q) && ExtractCompany(text) == text[p..q]
    ensures forall p': nat, q': nat :: CompanyNameAt(text, p', q') ==> p <= p' && (p' == p ==> q' <= q)
  {
    var first := Leftmost(CompanyAt, text, 0);
    p, q := first.value.0, first.value.1;
    var j := CompanyAtSound(text, p);
    assert CompanySplit(text, p, j, q);
    forall p': nat, q': nat | CompanyNameAt(text, p', q') ensures p <= p' && (p' == p ==> q' <= q) {
      var j' :| CompanySplit(text, p', j', q');
      LeftmostBeatsEveryName(text, p', j', q');
    }
  }

  /** A found company is a company name in its own right. */
  lemma CompanyIsName(text: string)
    requires ExtractCompany(text) != "Unknown"
    ensures IsCompanyName(ExtractCompany(text))
  {
    var first := Leftmost(CompanyAt, text, 0);
    var p, q := first.value.0, first.value.1;
    var j := CompanyAtSound(text, p);
    assert text[p..q] == ExtractCompany(text);
    CompanyNameSlice(text, p, j, q);
  }

  /** A found company is a substring of the text. */
  lemma CompanyOccurs(text: string)
    ensures Occurs(ExtractCompany(text), text) || ExtractCompany(text) == "Unknown"
  {
    var first := Leftmost(CompanyAt, text, 0);
    if first.Some? {
      var p, q := first.value.0, first.value.1;
      assert MatchesAt(text, text[p..q], p);
    }
  }

  /** "Unknown" exactly when the text holds no company name. */
  lemma CompanyUnknown(text: string)
    ensures ExtractCompany(text) == "Unknown" <==> forall p: nat, q: nat :: !CompanyNameAt(text, p, q)
  {
    var first := Leftmost(CompanyAt, text, 0);
    if first.Some? {
      var p, q := first.value.0, first.value.1;
      var j := CompanyAtSound(text, p);
      CompanyNameIsNotUnknown(text, p, j, q);
      assert CompanyNameAt(text, p, q);
    } else {
      forall p: nat, q: nat | CompanyNameAt(text, p, q) ensures false {
        var j :| CompanySplit(text, p, j, q);
        LeftmostBeatsEveryName(text, p, j, q);
      }
    }
  }

  /** The pattern is case-sensitive: a text without lower-case letters
      names no company. */
  lemma NoLowerCaseNoCompany(text: string)
    requires forall i :: 0 <= i < |text| ==> !IsLower(text[i])
    ensures ExtractCompany(text) == "Unknown"
  {
    CompanyUnknown(text);
  }

  lemma UpperCaseNameIsUnknown(s: string)
    requires s == "TATA STEEL LIMITED"
    ensures ExtractCompany(s) == "Unknown"
  {
    NoLowerCaseNoCompany(s);
  }

  /** The greedy star first reads "Limited" as one more word, then gives it
      back to the suffix: "Tata Steel Limited" is found whole. */
  lemma WholeCompanyName(s: string)
    requires s == "Tata Steel Limited"
    ensures ExtractCompany(s) == s
  {
    assert s[10] == ' ' && s[11..18] == Suffixes[0];
    TataSteelIsChain(s);
    LeftmostBeatsEveryName(s, 0, 10, 18);
  }

  /** "Tata Steel" is a chain of capitalised words. */
  lemma TataSteelIsChain(s: string)
    requires s == "Tata Steel Limited"
    ensures WordChainIn(s, 0, 10)
  {
    assert IsUpper(s[0]) && IsUpper(s[5]) && s[4] == ' ';
    assert forall i :: 1 <= i < 4 || 6 <= i < 10 ==> IsLower(s[i]);
  }
}

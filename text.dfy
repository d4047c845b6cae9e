/** The Python `str` operations the text-processing layer relies on, restricted
    to ASCII: character classes, `lower`, `strip`, `startswith`, `in`
    (substring search), `partition` and `split`. */
module Text {

  datatype Option<T> = None | Some(value: T)

  /** `str.isspace` on ASCII: space, \t \n \v \f \r and the separators \x1c-\x1f. */
  predicate IsSpace(c: char) {
    c == ' ' || ('\t' <= c <= '\r') || ('\U{1C}' <= c <= '\U{1F}')
  }

  predicate IsUpper(c: char) { 'A' <= c <= 'Z' }

  predicate IsLower(c: char) { 'a' <= c <= 'z' }

  predicate IsDigit(c: char) { '0' <= c <= '9' }

  function Min(a: nat, b: nat): nat { if a <= b then a else b }

  function LowerChar(c: char): (d: char)
    ensures IsUpper(c) ==> IsLower(d) && d as int == c as int + 32
    ensures !IsUpper(c) ==> d == c
  {
    if IsUpper(c) then (c as int + 32) as char else c
  }

  /** `s.lower()`: ASCII case folding, character by character. */
  function Lower(s: string): (r: string)
    ensures |r| == |s|
    ensures forall i :: 0 <= i < |s| ==> r[i] == LowerChar(s[i])
  {
    seq(|s|, i requires 0 <= i < |s| => LowerChar(s[i]))
  }

  /** Lower-casing twice is lower-casing once. */
  lemma LowerTwice(s: string)
    ensures Lower(Lower(s)) == Lower(s)
  {
  }

  /** `s.startswith(p)` */
  predicate StartsWith(s: string, p: string) {
    |p| <= |s| && s[..|p|] == p
  }

  /** `needle` occurs in `hay` starting at index `i`. */
  predicate MatchesAt(hay: string, needle: string, i: nat) {
    i + |needle| <= |hay| && hay[i..i + |needle|] == needle
  }

  /** A needle does not match where one of its characters differs from the text. */
  lemma Mismatch(hay: string, needle: string, i: nat, k: nat)
    requires k < |needle| && i + k < |hay| && hay[i + k] != needle[k]
    ensures !MatchesAt(hay, needle, i)
  {
  }

  /** `needle in hay` */
  predicate Occurs(needle: string, hay: string) {
    exists i | 0 <= i <= |hay| :: MatchesAt(hay, needle, i)
  }

  /** A needle whose first character is absent from `hay` does not occur in it. */
  lemma AbsentFirstChar(needle: string, hay: string)
    requires |needle| > 0 && needle[0] !in hay
    ensures !Occurs(needle, hay)
  {
  }

  /** `s` without its leading whitespace. */
  function StripStart(s: string): string {
    if |s| > 0 && IsSpace(s[0]) then StripStart(s[1..]) else s
  }

  /** `s` without its trailing whitespace. */
  function StripEnd(s: string): string {
    if |s| > 0 && IsSpace(s[|s| - 1]) then StripEnd(s[..|s| - 1]) else s
  }

  /** `s.strip()`: `s` without its leading and trailing whitespace. */
  function Strip(s: string): string {
    StripEnd(StripStart(s))
  }

  /** `s` is `r` with only whitespace before index `a` and after `r`. */
  ghost predicate PaddedBy(s: string, r: string, a: nat) {
    a + |r| <= |s| && s[a..a + |r|] == r &&
    (forall k :: 0 <= k < a ==> IsSpace(s[k])) &&
    (forall k :: a + |r| <= k < |s| ==> IsSpace(s[k]))
  }

  lemma {:induction false} StripStartSpec(s: string) returns (a: nat)
    ensures a <= |s| && StripStart(s) == s[a..]
    ensures forall k :: 0 <= k < a ==> IsSpace(s[k])
    ensures a < |s| ==> !IsSpace(s[a])
  {
    if |s| > 0 && IsSpace(s[0]) {
      var b := StripStartSpec(s[1..]);
      a := b + 1;
      assert s[1..][b..] == s[a..];
    } else {
      a := 0;
    }
  }

  lemma {:induction false} StripEndSpec(s: string) returns (b: nat)
    ensures b <= |s| && StripEnd(s) == s[..b]
    ensures forall k :: b <= k < |s| ==> IsSpace(s[k])
    ensures b > 0 ==> !IsSpace(s[b - 1])
  {
    if |s| > 0 && IsSpace(s[|s| - 1]) {
      b := StripEndSpec(s[..|s| - 1]);
      assert s[..|s| - 1][..b] == s[..b];
    } else {
      b := |s|;
    }
  }

  /** What `strip` promises: the result is what is left of `s` after removing
      only whitespace at both ends, and it neither starts nor ends with
      whitespace. */
  lemma StripRemovesOnlyPadding(s: string)
    ensures exists a :: PaddedBy(s, Strip(s), a)
    ensures Strip(s) != [] ==> !IsSpace(Strip(s)[0]) && !IsSpace(Strip(s)[|Strip(s)| - 1])
  {
    var a := StripStartSpec(s);
    var t := s[a..];
    var b := StripEndSpec(t);
    assert Strip(s) == s[a..a + b];
    assert PaddedBy(s, Strip(s), a);
  }

  /** Index of the first occurrence of `c` in `s`. */
  function IndexOf(s: string, c: char): (i: nat)
    requires c in s
    ensures i < |s| && s[i] == c
    ensures forall k :: 0 <= k < i ==> s[k] != c
  {
    if s[0] == c then 0 else 1 + IndexOf(s[1..], c)
  }

  /** `s.partition(c)[2]`: what follows the first `c`, or "" when there is none. */
  function AfterFirst(s: string, c: char): (r: string)
    ensures c !in s ==> r == ""
    ensures c in s ==> r == s[IndexOf(s, c) + 1..]
  {
    if c in s then s[IndexOf(s, c) + 1..] else ""
  }

  /** `s.split(sep)` for a one-character separator. */
  function Split(s: string, sep: char): (r: seq<string>)
    decreases |s|
    ensures |r| >= 1
    ensures forall i :: 0 <= i < |r| ==> sep !in r[i]
  {
    if |s| == 0 then [""]
    else
      var rest := Split(s[1..], sep);
      if s[0] == sep then [""] + rest else [[s[0]] + rest[0]] + rest[1..]
  }

  /** `sep.join(parts)` */
  function Join(parts: seq<string>, sep: char): string
    requires |parts| >= 1
  {
    if |parts| == 1 then parts[0] else parts[0] + [sep] + Join(parts[1..], sep)
  }

  /** Splitting loses nothing: joining the pieces gives back the input. */
  lemma {:induction false} JoinSplit(s: string, sep: char)
    ensures Join(Split(s, sep), sep) == s
  {
    if |s| > 0 {
      var rest := Split(s[1..], sep);
      JoinSplit(s[1..], sep);
      if s[0] == sep {
        assert Split(s, sep) == [""] + rest;
        assert ([""] + rest)[1..] == rest;
      } else if |rest| == 1 {
        assert Split(s, sep) == [[s[0]] + rest[0]];
      } else {
        var r := Split(s, sep);
        assert r == [[s[0]] + rest[0]] + rest[1..];
        assert r[1..] == rest[1..];
        assert Join(rest, sep) == rest[0] + [sep] + Join(rest[1..], sep);
      }
    }
  }

  /** A piece free of the separator splits to itself. */
  lemma {:induction false} SplitPlain(w: string, sep: char)
    requires sep !in w
    ensures Split(w, sep) == [w]
  {
    if |w| > 0 {
      SplitPlain(w[1..], sep);
      assert [w[0]] + w[1..] == w;
    }
  }

  /** A separator-free piece followed by the separator splits off as one piece. */
  lemma {:induction false} SplitCons(w: string, sep: char, t: string)
    requires sep !in w
    ensures Split(w + [sep] + t, sep) == [w] + Split(t, sep)
  {
    var s := w + [sep] + t;
    if |w| == 0 {
      assert s[1..] == t;
    } else {
      assert s[1..] == w[1..] + [sep] + t;
      SplitCons(w[1..], sep, t);
      assert [w[0]] + w[1..] == w;
    }
  }

  /** Splitting undoes joining pieces that do not contain the separator. */
  lemma {:induction false} SplitJoin(parts: seq<string>, sep: char)
    requires |parts| >= 1
    requires forall i :: 0 <= i < |parts| ==> sep !in parts[i]
    ensures Split(Join(parts, sep), sep) == parts
  {
    if |parts| == 1 {
      SplitPlain(parts[0], sep);
    } else {
      SplitJoin(parts[1..], sep);
      SplitCons(parts[0], sep, Join(parts[1..], sep));
      assert [parts[0]] + parts[1..] == parts;
    }
  }
}

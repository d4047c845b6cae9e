/** `parse_2l`: the structured parser that reads the six numbered fields of the
    "2l" format out of a model response (2l_app.py:61-72). */
module TwoL {
  import opened Text

  const FieldCount := 6

  /** The digit that numbers field `k`: '1' for field 0, …, '6' for field 5. */
  function Digit(k: nat): char
    requires k < FieldCount
  {
    ('1' as int + k) as char
  }

  /** The line prefix that fills field `k`: "1." for field 0, …, "6." for field 5. */
  function Marker(k: nat): string
    requires k < FieldCount
  {
    [Digit(k), '.']
  }

  /** A line fills field `k` when, stripped, it starts with that field's marker. */
  predicate Fills(line: string, k: nat)
    requires k < FieldCount
  {
    StartsWith(Strip(line), Marker(k))
  }

  /** What a line stores: the stripped text after the first '.' of the stripped line. */
  function FieldValue(line: string): string {
    Strip(AfterFirst(Strip(line), '.'))
  }

  /** Field `k` as read from the first `n` lines: the value of the last of
      them that fills it, or "" when none does. */
  function Slot(lines: seq<string>, n: nat, k: nat): string
    requires n <= |lines| && k < FieldCount
  {
    if n == 0 then ""
    else if Fills(lines[n - 1], k) then FieldValue(lines[n - 1])
    else Slot(lines, n - 1, k)
  }

  /** The six fields as read from the first `n` lines. */
  function Slots(lines: seq<string>, n: nat): (r: seq<string>)
    requires n <= |lines|
    ensures |r| == FieldCount
  {
    seq(FieldCount, k requires 0 <= k < FieldCount => Slot(lines, n, k))
  }

  /** The six fields of a response, read line by line. */
  function Fields(text: string): (r: seq<string>)
    ensures |r| == FieldCount
  {
    var lines := Split(text, '\n');
    Slots(lines, |lines|)
  }

  /** parse_2l: one pass over the lines of `text`, each matching line
      overwriting its field. */
  method Parse2l(text: string) returns (fields: seq<string>)
    ensures |fields| == FieldCount
    ensures fields == Fields(text)
  {
    var lines := Split(text, '\n');
    var values := seq(FieldCount, _ => "");
    assert values == Slots(lines, 0);
    for i := 0 to |lines|
      invariant values == Slots(lines, i)
    {
      var line := Strip(lines[i]);
      if StartsWith(line, Marker(0)) {
        values := values[0 := Strip(AfterFirst(line, '.'))];
        Overwritten(lines, i, 0);
      } else if StartsWith(line, Marker(1)) {
        values := values[1 := Strip(AfterFirst(line, '.'))];
        Overwritten(lines, i, 1);
      } else if StartsWith(line, Marker(2)) {
        values := values[2 := Strip(AfterFirst(line, '.'))];
        Overwritten(lines, i, 2);
      } else if StartsWith(line, Marker(3)) {
        values := values[3 := Strip(AfterFirst(line, '.'))];
        Overwritten(lines, i, 3);
      } else if StartsWith(line, Marker(4)) {
        values := values[4 := Strip(AfterFirst(line, '.'))];
        Overwritten(lines, i, 4);
      } else if StartsWith(line, Marker(5)) {
        values := values[5 := Strip(AfterFirst(line, '.'))];
        Overwritten(lines, i, 5);
      } else {
        Untouched(lines, i);
      }
    }
    fields := values;
  }

  /** A line starts with marker `k` exactly when its first two characters are
      the digit of `k` and '.'. */
  lemma MarkerAt(t: string, k: nat)
    requires k < FieldCount
    ensures StartsWith(t, Marker(k)) <==> |t| >= 2 && t[0] == Digit(k) && t[1] == '.'
  {
    if |t| >= 2 && t[0] == Digit(k) && t[1] == '.' {
      assert t[..2] == Marker(k);
    }
  }

  /** A line that starts with marker `j` overwrites field `j` and no other. */
  lemma Overwritten(lines: seq<string>, i: nat, j: nat)
    requires i < |lines| && j < FieldCount
    requires StartsWith(Strip(lines[i]), Marker(j))
    ensures Slot(lines, i + 1, j) == FieldValue(lines[i])
    ensures forall k :: 0 <= k < FieldCount && k != j ==> Slot(lines, i + 1, k) == Slot(lines, i, k)
    ensures Slots(lines, i + 1) == Slots(lines, i)[j := FieldValue(lines[i])]
  {
    MarkerAt(Strip(lines[i]), j);
    forall k | 0 <= k < FieldCount && k != j
      ensures Slot(lines, i + 1, k) == Slot(lines, i, k)
    {
      MarkerAt(Strip(lines[i]), k);
    }
  }

  /** A line that starts with no marker changes no field. */
  lemma Untouched(lines: seq<string>, i: nat)
    requires i < |lines|
    requires forall j :: 0 <= j < FieldCount ==> !StartsWith(Strip(lines[i]), Marker(j))
    ensures forall k :: 0 <= k < FieldCount ==> Slot(lines, i + 1, k) == Slot(lines, i, k)
    ensures Slots(lines, i + 1) == Slots(lines, i)
  {
    forall k | 0 <= k < FieldCount
      ensures Slot(lines, i + 1, k) == Slot(lines, i, k)
    {
    }
  }

  /** For a filling line the value is the stripped rest after its two-character marker. */
  lemma ValueAfterMarker(line: string, k: nat)
    requires k < FieldCount && Fills(line, k)
    ensures FieldValue(line) == Strip(Strip(line)[2..])
  {
    var t := Strip(line);
    MarkerAt(t, k);
    assert IndexOf(t, '.') == 1;
  }

  /** Line `i` is the last of the first `n` lines that fills field `k`. */
  ghost predicate LastFilling(lines: seq<string>, n: nat, k: nat, i: nat)
    requires n <= |lines| && k < FieldCount
  {
    i < n && Fills(lines[i], k) &&
    forall j :: i < j < n ==> !Fills(lines[j], k)
  }

  /** A field stays "" when none of the lines fills it. */
  lemma {:induction false} SlotEmptyUnlessFilled(lines: seq<string>, n: nat, k: nat)
    requires n <= |lines| && k < FieldCount
    requires forall i :: 0 <= i < n ==> !Fills(lines[i], k)
    ensures Slot(lines, n, k) == ""
  {
    if n > 0 {
      SlotEmptyUnlessFilled(lines, n - 1, k);
    }
  }

  /** The last line that fills a field decides it. */
  lemma {:induction false} SlotLastWins(lines: seq<string>, n: nat, k: nat, i: nat)
    requires n <= |lines| && k < FieldCount && LastFilling(lines, n, k, i)
    ensures Slot(lines, n, k) == FieldValue(lines[i])
  {
    if i < n - 1 {
      SlotLastWins(lines, n - 1, k, i);
    }
  }

  /** A non-empty field comes from the last line that fills it. */
  lemma {:induction false} SlotFromLastFilling(lines: seq<string>, n: nat, k: nat) returns (i: nat)
    requires n <= |lines| && k < FieldCount
    requires Slot(lines, n, k) != ""
    ensures LastFilling(lines, n, k, i) && Slot(lines, n, k) == FieldValue(lines[i])
  {
    if Fills(lines[n - 1], k) {
      i := n - 1;
    } else {
      i := SlotFromLastFilling(lines, n - 1, k);
    }
  }

  /** A line made of marker `k`, a space and a value without surrounding
      whitespace fills field `k` only, with that value. */
  lemma MarkedLine(k: nat, v: string)
    requires k < FieldCount
    requires v != [] && !IsSpace(v[0]) && !IsSpace(v[|v| - 1])
    ensures Fills(Marker(k) + " " + v, k)
    ensures FieldValue(Marker(k) + " " + v) == v
    ensures forall j :: 0 <= j < FieldCount && j != k ==> !Fills(Marker(k) + " " + v, j)
  {
    var line := Marker(k) + " " + v;
    assert StripStart(line) == line;
    assert StripEnd(line) == line;
    assert Strip(line) == line;
    assert IndexOf(line, '.') == 1;
    assert AfterFirst(line, '.') == " " + v;
    assert StripStart(" " + v) == StripStart(v) == v;
    assert StripEnd(v) == v;
    forall j | 0 <= j < FieldCount
      ensures Fills(line, j) <==> j == k
    {
      MarkerAt(line, j);
    }
  }

  /** Lines that each carry a different marker fill their fields with their values. */
  lemma {:induction false} OneLinePerField(lines: seq<string>, vs: seq<string>)
    requires |lines| == FieldCount && |vs| == FieldCount
    requires forall m :: 0 <= m < FieldCount ==>
               vs[m] != [] && !IsSpace(vs[m][0]) && !IsSpace(vs[m][|vs[m]| - 1])
    requires forall m :: 0 <= m < FieldCount ==> lines[m] == Marker(m) + " " + vs[m]
    ensures forall k :: 0 <= k < FieldCount ==> Slot(lines, |lines|, k) == vs[k]
  {
    forall k | 0 <= k < FieldCount
      ensures Slot(lines, |lines|, k) == vs[k]
    {
      forall m | 0 <= m < FieldCount
        ensures Fills(lines[m], k) <==> m == k
      {
        MarkedLine(m, vs[m]);
      }
      MarkedLine(k, vs[k]);
      SlotLastWins(lines, |lines|, k, k);
    }
  }

  /** The reply the prompt asks for: one line "N. value" per field, in order. */
  function Reply(vs: seq<string>): string
    requires |vs| == FieldCount
  {
    Join(seq(FieldCount, m requires 0 <= m < FieldCount => Marker(m) + " " + vs[m]), '\n')
  }

  /** Reading back a reply written in the requested format gives the six
      values that were written, provided each is a single line without
      surrounding whitespace. */
  lemma ReplyRoundTrip(vs: seq<string>)
    requires |vs| == FieldCount
    requires forall m :: 0 <= m < FieldCount ==>
               vs[m] != [] && !IsSpace(vs[m][0]) && !IsSpace(vs[m][|vs[m]| - 1]) && '\n' !in vs[m]
    ensures Fields(Reply(vs)) == vs
  {
    var lines := seq(FieldCount, m requires 0 <= m < FieldCount => Marker(m) + " " + vs[m]);
    forall m | 0 <= m < FieldCount
      ensures '\n' !in lines[m]
    {
      assert lines[m] == [Digit(m), '.', ' '] + vs[m];
    }
    SplitJoin(lines, '\n');
    OneLinePerField(lines, vs);
    FieldsFromSlots(Reply(vs), lines, vs);
  }

  /** The fields of `text` once its lines and what they fill are known. */
  lemma FieldsFromSlots(text: string, lines: seq<string>, vs: seq<string>)
    requires Split(text, '\n') == lines && |vs| == FieldCount
    requires forall k :: 0 <= k < FieldCount ==> Slot(lines, |lines|, k) == vs[k]
    ensures Fields(text) == vs
  {
  }

  /** Two marked lines: the second decides its field, the first decides its
      own field unless the second has the same marker, and the rest stay "". */
  lemma TwoMarkedLines(j1: nat, v1: string, j2: nat, v2: string)
    requires j1 < FieldCount && j2 < FieldCount
    requires v1 != [] && !IsSpace(v1[0]) && !IsSpace(v1[|v1| - 1])
    requires v2 != [] && !IsSpace(v2[0]) && !IsSpace(v2[|v2| - 1])
    ensures forall k :: 0 <= k < FieldCount ==>
              Slot([Marker(j1) + " " + v1, Marker(j2) + " " + v2], 2, k) ==
              if k == j2 then v2 else if k == j1 then v1 else ""
  {
    var lines := [Marker(j1) + " " + v1, Marker(j2) + " " + v2];
    MarkedLine(j1, v1);
    MarkedLine(j2, v2);
    forall k | 0 <= k < FieldCount
      ensures Slot(lines, 2, k) == if k == j2 then v2 else if k == j1 then v1 else ""
    {
      if k == j2 {
        SlotLastWins(lines, 2, k, 1);
      } else if k == j1 {
        SlotLastWins(lines, 2, k, 0);
      } else {
        SlotEmptyUnlessFilled(lines, 2, k);
      }
    }
  }

  /** "1. A\n3. C" fills field 0 with "A" and field 2 with "C". */
  lemma MissingLinesSlots()
    ensures forall k :: 0 <= k < FieldCount ==>
              Slot(["1. A", "3. C"], 2, k) == ["A", "", "C", "", "", ""][k]
  {
    assert Digit(0) == '1' && Digit(2) == '3';
    assert Marker(0) + " " + "A" == "1. A" && Marker(2) + " " + "C" == "3. C";
    TwoMarkedLines(0, "A", 2, "C");
  }

  /** A missing line leaves its field empty: "1. A\n3. C" reads as A, "", C, "", "", "". */
  lemma MissingLines()
    ensures Fields("1. A\n3. C") == ["A", "", "C", "", "", ""]
  {
    var lines := ["1. A", "3. C"];
    assert Join(lines, '\n') == "1. A\n3. C";
    SplitJoin(lines, '\n');
    MissingLinesSlots();
    FieldsFromSlots("1. A\n3. C", lines, ["A", "", "C", "", "", ""]);
  }

  /** "1. A\n1. B" leaves "B" in field 0 and nothing elsewhere. */
  lemma RepeatedLineSlots()
    ensures forall k :: 0 <= k < FieldCount ==>
              Slot(["1. A", "1. B"], 2, k) == ["B", "", "", "", "", ""][k]
  {
    assert Digit(0) == '1';
    assert Marker(0) + " " + "A" == "1. A" && Marker(0) + " " + "B" == "1. B";
    TwoMarkedLines(0, "A", 0, "B");
  }

  /** The last of two lines with the same marker wins: "1. A\n1. B" reads as B. */
  lemma RepeatedLine()
    ensures Fields("1. A\n1. B") == ["B", "", "", "", "", ""]
  {
    var lines := ["1. A", "1. B"];
    assert Join(lines, '\n') == "1. A\n1. B";
    SplitJoin(lines, '\n');
    RepeatedLineSlots();
    FieldsFromSlots("1. A\n1. B", lines, ["B", "", "", "", "", ""]);
  }

  /** A failure-marked summarizer response on one line ("Error: …") reads as
      six empty fields. */
  lemma FailureReadsEmpty(cause: string)
    requires '\n' !in cause
    ensures Fields("Error: " + cause) == ["", "", "", "", "", ""]
  {
    var t := "Error: " + cause;
    assert '\n' !in t by {
      assert forall i :: 0 <= i < |t| ==> t[i] == if i < 7 then "Error: "[i] else cause[i - 7];
    }
    SplitPlain(t, '\n');
    var a := StripStartSpec(t);
    assert a == 0;
    var b := StripEndSpec(t);
    assert Strip(t) == t[..b] && b > 0;
    forall k | 0 <= k < FieldCount
      ensures Slot([t], 1, k) == ""
    {
      MarkerAt(Strip(t), k);
      SlotEmptyUnlessFilled([t], 1, k);
    }
  }
}

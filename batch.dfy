/** The batch loop (2l_app.py:151-169): one output row per link of the
    uploaded table, in order. A link whose fetched text starts with "Error"
    gets the fixed error row and is not sent to the summarizer; any other
    link gets its tags and the six "2l" fields of the summary. Fetching and
    summarizing are oracles passed in as functions; the column names are
    those of 2l_app.py:173-175. */
module Batch {
  import opened Text
  import TwoL
  import Keywords
  import Patterns
  import Fetcher

  /** The columns of the output table, in order. */
  const Columns: seq<string> := [
    "Link", "Symbol", "Company", "Sector", "Date", "Announcement Type",
    "Key Pointers", "Summary", "Final Summary",
    "Explain Like 5", "One Word", "Good/Bad"
  ]

  /** The number of tag columns before the six summary fields. */
  const TagCount := 6

  /** A fetched text the loop treats as a failure. */
  predicate IsFailure(text: string) {
    StartsWith(text, "Error")
  }

  /** The row of a link whose text could not be fetched. */
  function ErrorRow(link: string): (r: seq<string>)
    ensures |r| == |Columns| && r[0] == link
    ensures r[1] == "Unknown" && r[2] == "Unknown" && r[3] == "Unknown"
    ensures forall k :: 4 <= k < |Columns| ==> r[k] == "Error"
  {
    [link, "Unknown", "Unknown", "Unknown", "Error", "Error"] +
    seq(TwoL.FieldCount, _ => "Error")
  }

  /** The five tags of a fetched text, after its link. */
  function Tags(link: string, text: string, today: string): (r: seq<string>)
    ensures |r| == TagCount
  {
    [link, Patterns.ExtractSymbol(link, text), Patterns.ExtractCompany(text),
     Keywords.Sector(text), Patterns.ExtractDate(link, today), Keywords.AnnouncementType(text)]
  }

  /** The row of a link whose text was fetched: its tags, then the fields
      of the summary. */
  function TaggedRow(link: string, text: string, reply: string, today: string): seq<string> {
    Tags(link, text, today) + TwoL.Fields(reply)
  }

  /** The row the loop appends for `link`. */
  function RowFor(link: string, fetch: string -> Fetcher.Download,
                  summarize: string -> string, today: string): seq<string> {
    var text := Fetcher.PdfText(fetch(link));
    if IsFailure(text) then ErrorRow(link) else TaggedRow(link, text, summarize(text), today)
  }

  /** The output table: the row of each link, in input order. */
  function Rows(links: seq<string>, fetch: string -> Fetcher.Download,
                summarize: string -> string, today: string): (r: seq<seq<string>>)
    ensures |r| == |links|
  {
    if |links| == 0 then []
    else Rows(links[..|links| - 1], fetch, summarize, today) + [RowFor(links[|links| - 1], fetch, summarize, today)]
  }

  /** Row `i` of the table belongs to link `i`. */
  lemma {:induction false} RowsAt(links: seq<string>, fetch: string -> Fetcher.Download,
                                  summarize: string -> string, today: string, i: nat)
    requires i < |links|
    ensures Rows(links, fetch, summarize, today)[i] == RowFor(links[i], fetch, summarize, today)
  {
    if i < |links| - 1 {
      var init := links[..|links| - 1];
      RowsAt(init, fetch, summarize, today, i);
    }
  }

  /** The texts handed to the summarizer, in order: those of the links
      whose text is not a failure. */
  function Prompts(links: seq<string>, fetch: string -> Fetcher.Download): seq<string> {
    if |links| == 0 then []
    else
      var text := Fetcher.PdfText(fetch(links[|links| - 1]));
      Prompts(links[..|links| - 1], fetch) + (if IsFailure(text) then [] else [text])
  }

  /** The body of the loop for a fetched text: the five tags, then the
      fields of the summary `reply`. */
  method TagRow(link: string, text: string, reply: string, today: string) returns (row: seq<string>)
    ensures row == TaggedRow(link, text, reply, today)
  {
    var date := Patterns.ExtractDate(link, today);
    var company := Patterns.ExtractCompany(text);
    var sector := Keywords.GuessSector(text);
    var symbol := Patterns.ExtractSymbol(link, text);
    var annType := Keywords.DetectType(text);
    var fields := TwoL.Parse2l(reply);
    row := [link, symbol, company, sector, date, annType] + fields;
  }

  /** What one more link adds to the prompts. */
  lemma PromptsStep(links: seq<string>, fetch: string -> Fetcher.Download, i: nat)
    requires i < |links|
    ensures var text := Fetcher.PdfText(fetch(links[i]));
      Prompts(links[..i + 1], fetch) ==
      Prompts(links[..i], fetch) + (if IsFailure(text) then [] else [text])
  {
    assert links[..i + 1][..i] == links[..i];
  }

  /** What one more link adds to the rows. */
  lemma RowsStep(links: seq<string>, fetch: string -> Fetcher.Download,
                 summarize: string -> string, today: string, i: nat)
    requires i < |links|
    ensures Rows(links[..i + 1], fetch, summarize, today) ==
            Rows(links[..i], fetch, summarize, today) + [RowFor(links[i], fetch, summarize, today)]
  {
    assert links[..i + 1][..i] == links[..i];
  }

  /** The batch loop: fetch each link, skip failures with the error row,
      otherwise tag the text, summarize it and parse the summary. Returns the
      rows and the texts the summarizer was called with. */
  method RunBatch(links: seq<string>, fetch: string -> Fetcher.Download,
                  summarize: string -> string, today: string)
    returns (rows: seq<seq<string>>, asked: seq<string>)
    ensures rows == Rows(links, fetch, summarize, today)
    ensures asked == Prompts(links, fetch)
  {
    rows := [];
    asked := [];
    for i := 0 to |links|
      invariant rows == Rows(links[..i], fetch, summarize, today)
      invariant asked == Prompts(links[..i], fetch)
    {
      var link := links[i];
      var text := Fetcher.FetchPdfText(fetch(link));
      PromptsStep(links, fetch, i);
      RowsStep(links, fetch, summarize, today, i);
      if IsFailure(text) {
        rows := rows + [ErrorRow(link)];
        continue;
      }
      var reply := summarize(text);
      asked := asked + [text];
      var row := TagRow(link, text, reply, today);
      rows := rows + [row];
    }
    assert links[..|links|] == links;
  }

  /** Every row has one field per column, and its first field is its link. */
  lemma RowShape(links: seq<string>, fetch: string -> Fetcher.Download,
                 summarize: string -> string, today: string, i: nat)
    requires i < |links|
    ensures var row := Rows(links, fetch, summarize, today)[i];
      |row| == |Columns| && row[0] == links[i]
  {
    RowsAt(links, fetch, summarize, today, i);
  }

  /** A link whose text is a failure gets the error row: "Unknown" tags and
      "Error" everywhere else. */
  lemma FailedLinkRow(links: seq<string>, fetch: string -> Fetcher.Download,
                        summarize: string -> string, today: string, i: nat)
    requires i < |links| && IsFailure(Fetcher.PdfText(fetch(links[i])))
    ensures var row := Rows(links, fetch, summarize, today)[i];
      |row| == |Columns| && row[1] == "Unknown" && row[2] == "Unknown" && row[3] == "Unknown" &&
      forall k :: TagCount - 2 <= k < |Columns| ==> row[k] == "Error"
  {
    RowsAt(links, fetch, summarize, today, i);
  }

  /** Any other link gets the tags of its text and, in the last six columns,
      the fields parsed from the summary of that text. */
  lemma TaggedLinkRow(links: seq<string>, fetch: string -> Fetcher.Download,
                      summarize: string -> string, today: string, i: nat)
    requires i < |links|
    requires !IsFailure(Fetcher.PdfText(fetch(links[i])))
    ensures var text := Fetcher.PdfText(fetch(links[i]));
      var row := Rows(links, fetch, summarize, today)[i];
      |row| == |Columns| &&
      row[1] == Patterns.ExtractSymbol(links[i], text) &&
      row[2] == Patterns.ExtractCompany(text) &&
      row[3] == Keywords.Sector(text) &&
      row[4] == Patterns.ExtractDate(links[i], today) &&
      row[5] == Keywords.AnnouncementType(text) &&
      row[TagCount..] == TwoL.Fields(summarize(text))
  {
    RowsAt(links, fetch, summarize, today, i);
    var text := Fetcher.PdfText(fetch(links[i]));
    var row := Rows(links, fetch, summarize, today)[i];
    assert row == TaggedRow(links[i], text, summarize(text), today);
    TaggedRowFields(links[i], text, summarize(text), today);
  }

  lemma TaggedRowFields(link: string, text: string, reply: string, today: string)
    ensures var row := TaggedRow(link, text, reply, today);
      |row| == |Columns| && row[0] == link &&
      row[1] == Patterns.ExtractSymbol(link, text) &&
      row[2] == Patterns.ExtractCompany(text) &&
      row[3] == Keywords.Sector(text) &&
      row[4] == Patterns.ExtractDate(link, today) &&
      row[5] == Keywords.AnnouncementType(text) &&
      row[TagCount..] == TwoL.Fields(reply)
  {
    var tags := Tags(link, text, today);
    var fields := TwoL.Fields(reply);
    var row := TaggedRow(link, text, reply, today);
    assert row == tags + fields;
    assert row[0] == tags[0] && row[1] == tags[1] && row[2] == tags[2];
    assert row[3] == tags[3] && row[4] == tags[4] && row[5] == tags[5];
    assert row[TagCount..] == fields;
  }

  /** A PDF whose own text starts with "Error" is reported like a failed
      download: the loop cannot tell the two apart. */
  lemma ErrorTextLooksFailed(links: seq<string>, fetch: string -> Fetcher.Download,
                             summarize: string -> string, today: string, i: nat)
    requires i < |links| && fetch(links[i]).Pages?
    requires StartsWith(Fetcher.Concat(fetch(links[i]).pages), "Error")
    ensures Rows(links, fetch, summarize, today)[i] == ErrorRow(links[i])
  {
    RowsAt(links, fetch, summarize, today, i);
    Fetcher.ErrorPrefix(fetch(links[i]));
  }

  /** The summarizer only ever sees fetched text: never a failure, and never
      more than 4000 characters; and it is called at most once per link. */
  lemma {:induction false} PromptsAreTexts(links: seq<string>, fetch: string -> Fetcher.Download)
    ensures |Prompts(links, fetch)| <= |links|
    ensures forall k :: 0 <= k < |Prompts(links, fetch)| ==>
      !IsFailure(Prompts(links, fetch)[k]) && |Prompts(links, fetch)[k]| <= Fetcher.MaxChars
  {
    if |links| > 0 {
      var d := fetch(links[|links| - 1]);
      PromptsAreTexts(links[..|links| - 1], fetch);
      Fetcher.ErrorPrefix(d);
      if d.Pages? && Fetcher.Concat(d.pages) != "" {
        Fetcher.TextIsPrefix(d.pages);
      }
    }
  }

  /** A batch in which every link fails never calls the summarizer. */
  lemma {:induction false} AllFailedAsksNothing(links: seq<string>, fetch: string -> Fetcher.Download)
    requires forall i :: 0 <= i < |links| ==> IsFailure(Fetcher.PdfText(fetch(links[i])))
    ensures Prompts(links, fetch) == []
  {
    if |links| > 0 {
      var init := links[..|links| - 1];
      assert forall i :: 0 <= i < |init| ==> init[i] == links[i];
      AllFailedAsksNothing(init, fetch);
    }
  }
}

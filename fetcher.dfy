/** The text post-processing of `fetch_pdf_text` (2l_app.py:19-31): the page
    texts of the downloaded PDF are joined in page order, cut to at most 4000
    characters, and an empty result is replaced by a marker. The download
    and the PDF decode are not modelled; their outcome is the input. */
module Fetcher {
  import opened Text

  /** What fetching a link produced: the text of each page, in page order,
      or the message of the exception that stopped it. */
  datatype Download = Pages(pages: seq<string>) | Failed(cause: string)

  /** At most this many characters of a PDF are kept (`text[:4000]`). */
  const MaxChars := 4000

  /** What a PDF without text gives. */
  const NoTextMarker := "Error: No text found in PDF"

  /** `text += page.get_text()` over all pages: their texts, in order. */
  function Concat(pages: seq<string>): string {
    if |pages| == 0 then "" else Concat(pages[..|pages| - 1]) + pages[|pages| - 1]
  }

  /** Joining a batch of pages after another is joining each batch. */
  lemma {:induction false} ConcatAppend(a: seq<string>, b: seq<string>)
    ensures Concat(a + b) == Concat(a) + Concat(b)
    decreases |b|
  {
    if |b| > 0 {
      var last := b[|b| - 1];
      assert (a + b)[..|a + b| - 1] == a + b[..|b| - 1];
      ConcatAppend(a, b[..|b| - 1]);
    } else {
      assert a + b == a;
    }
  }

  /** The joined text is empty exactly when every page is. */
  lemma {:induction false} ConcatEmpty(pages: seq<string>)
    ensures Concat(pages) == "" <==> forall i :: 0 <= i < |pages| ==> pages[i] == ""
  {
    if |pages| > 0 {
      var init := pages[..|pages| - 1];
      ConcatEmpty(init);
      assert forall i :: 0 <= i < |init| ==> init[i] == pages[i];
    }
  }

  /** The result of `fetch_pdf_text`. */
  function PdfText(d: Download): string {
    match d
    case Failed(cause) => "Error: " + cause
    case Pages(pages) =>
      var text := Concat(pages);
      if text != "" then text[..Min(|text|, MaxChars)] else NoTextMarker
  }

  /** fetch_pdf_text after the download: append the page texts one by one,
      then cut or replace the result. */
  method FetchPdfText(d: Download) returns (text: string)
    ensures text == PdfText(d)
  {
    match d
    case Failed(cause) =>
      text := "Error: " + cause;
    case Pages(pages) =>
      text := "";
      for i := 0 to |pages|
        invariant text == Concat(pages[..i])
      {
        assert pages[..i + 1][..i] == pages[..i];
        text := text + pages[i];
      }
      assert pages[..|pages|] == pages;
      if text != "" {
        text := text[..Min(|text|, MaxChars)];
      } else {
        text := NoTextMarker;
      }
  }

  /** A PDF with text gives the first up-to-4000 characters of it, so never
      more than 4000. */
  lemma TextIsPrefix(pages: seq<string>)
    requires Concat(pages) != ""
    ensures var r := PdfText(Pages(pages));
      |r| <= MaxChars && |r| == Min(|Concat(pages)|, MaxChars) && StartsWith(Concat(pages), r)
  {
  }

  /** A PDF whose pages are all empty gives exactly the marker. */
  lemma NoTextGivesMarker(pages: seq<string>)
    requires forall i :: 0 <= i < |pages| ==> pages[i] == ""
    ensures PdfText(Pages(pages)) == NoTextMarker
  {
    ConcatEmpty(pages);
  }

  /** The result reads as a failure (starts with "Error") exactly when the
      download failed, the PDF has no text, or its text itself starts with
      "Error". */
  lemma ErrorPrefix(d: Download)
    ensures StartsWith(PdfText(d), "Error") <==>
            d.Failed? || Concat(d.pages) == "" || StartsWith(Concat(d.pages), "Error")
  {
    if d.Pages? {
      var text := Concat(d.pages);
      if text != "" {
        var r := PdfText(d);
        if |text| >= 5 {
          assert r[..5] == text[..5];
        } else {
          assert |r| < 5;
        }
      }
    } else {
      assert ("Error: " + d.cause)[..5] == "Error";
    }
  }
}

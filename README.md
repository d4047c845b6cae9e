# pushextract "2l" extractor: a verified model of its text-processing core

`2l_app.py` reads a table of links to PDF filings. For each link it
fetches the PDF's text and tags the filing with five heuristics: company,
sector, ticker symbol, date and announcement type. It then asks a language
model for a six-point "2l" summary, parses that reply into six fields and
emits one twelve-column row.

This project models the deterministic part of that pipeline in Dafny and
proves what each step promises:

- `text.dfy` (module `Text`) holds the Python string operations the code
  relies on, restricted to ASCII: `isspace`, `lower`, `strip`, `startswith`,
  substring `in`, `partition(".")[2]` and `split("\n")`.
- `twol.dfy` (module `TwoL`) is `parse_2l`: the six "2l" fields of a reply.
- `keywords.dfy` (module `Keywords`) holds `guess_sector` and `detect_type`,
  which are first-hit scans of ordered keyword tables.
- `patterns.dfy` (module `Patterns`) holds the three regular-expression
  searches: `extract_symbol`, `extract_date_from_url` and
  `extract_company`. Each is written as an explicit leftmost-match scanner
  and proved equal to an independent description of what the pattern
  matches.
- `fetcher.dfy` (module `Fetcher`) is the post-processing of
  `fetch_pdf_text`: join the pages in order, keep at most 4000 characters,
  and replace empty text by a marker.
- `batch.dfy` (module `Batch`) is the row-assembly loop. Fetching and
  summarizing are oracles passed in as functions.

Four behaviours of the code worth knowing:

- The symbol patterns take capitals only (`[A-Z]{1,10}`), not letters and
  digits. So "BSE: ABC123" gives "ABC", not "ABC123" (`Patterns.BseStopsAtDigits`).
- The company pattern is case-sensitive. "TATA STEEL LIMITED" names no
  company (`Patterns.UpperCaseNameIsUnknown`).
- The `continue` for a failed link skips the pacing delay as well as the
  progress update, so only successful rows are paced. Neither the delay
  nor the update is modelled.
- Failure is signalled by an "Error" prefix on the text. So a PDF whose own
  text starts with "Error" is reported exactly like a failed download
  (`Batch.ErrorTextLooksFailed`).

## Model

| member | source | states |
|---|---|---|
| Text.Lower | 2l_app.py:94 | `lower()` keeps the length and maps each character on its own: capitals to lower case (+32), everything else unchanged |
| Text.LowerTwice | 2l_app.py:94 | lower-casing an already lower-cased text changes nothing |
| Text.Strip | 2l_app.py:65 | `strip()`: whitespace removed at both ends; StripRemovesOnlyPadding states exactly what is removed and what is left |
| Text.StartsWith | 2l_app.py:66 | `startswith(p)`: the text begins with p; MarkerAt and ErrorPrefix state what it decides for the "N." markers and the "Error" prefix |
| Text.Occurs | 2l_app.py:94 | substring `in`: the needle appears in the text at some index; FirstHit/Lookup rely on it for the keyword tests |
| Text.StripRemovesOnlyPadding | 2l_app.py:65 | `strip()` removes only whitespace, and only at the two ends: the result sits in the input with whitespace before and after it, and it neither starts nor ends with whitespace |
| Text.AfterFirst | 2l_app.py:66 | `partition(".")[2]` is what follows the first '.', or "" when there is none |
| Text.IndexOf | 2l_app.py:66 | the index found holds the character, and no earlier index does |
| Text.Split | 2l_app.py:62 | `split("\n")` gives at least one piece, and no piece contains the separator |
| Text.JoinSplit | 2l_app.py:62 | splitting loses nothing: joining the pieces with the separator gives back the text |
| Text.SplitJoin | 2l_app.py:62 | splitting undoes joining pieces that are free of the separator |
| TwoL.Fields | 2l_app.py:61-72 | a reply always reads as exactly six fields |
| TwoL.Fills | 2l_app.py:66-71 | a line fills field k when, stripped, it starts with "k+1."; MarkerAt states it as its first two characters |
| TwoL.FieldValue | 2l_app.py:66-71 | the value stored for a line: the stripped text after the first '.' of the stripped line; ValueAfterMarker states it for marked lines |
| TwoL.Slot | 2l_app.py:64-71 | field k after the first n lines: SlotEmptyUnlessFilled, SlotLastWins and SlotFromLastFilling state that it is "" unless some line fills it, and otherwise the value of the last line that does |
| TwoL.Reply | 2l_app.py:39-44 | the six-line reply format the prompt asks for; ReplyRoundTrip states that parse_2l reads it back |
| TwoL.Parse2l | 2l_app.py:61-72 | the loop over the stripped lines, with its six-way branch on "1." … "6.", returns six fields, and they equal the specification `Fields` (field k is the value of the last line filling k, or "") |
| TwoL.Overwritten | 2l_app.py:66-71 | a line starting with "N." sets field N-1 to its value and leaves the other five fields as they were |
| TwoL.Untouched | 2l_app.py:64-71 | a line starting with no marker changes no field |
| TwoL.ValueAfterMarker | 2l_app.py:66-71 | the stored value is the stripped rest of the stripped line after its two-character marker |
| TwoL.MarkerAt | 2l_app.py:66-71 | a line starts with marker N exactly when its first two characters are the digit N and '.' |
| TwoL.SlotEmptyUnlessFilled | 2l_app.py:63-71 | a field no line fills stays "" |
| TwoL.SlotLastWins | 2l_app.py:64-71 | when several lines fill a field, the last of them decides its value |
| TwoL.SlotFromLastFilling | 2l_app.py:64-71 | conversely, a non-empty field is the value of the last line that fills it |
| TwoL.MarkedLine | 2l_app.py:66-71 | "N. v", with v free of outer whitespace, fills field N-1 with v and no other field |
| TwoL.OneLinePerField | 2l_app.py:61-72 | six lines "1. v1" … "6. v6" fill the six fields with v1 … v6 |
| TwoL.TwoMarkedLines | 2l_app.py:61-72 | with two marked lines, the second decides its own field, the first decides its field unless the second has the same marker, and the other fields are "" |
| TwoL.ReplyRoundTrip | 2l_app.py:61-72 | a reply written in the requested format, "1. v1" … "6. v6" on six lines with single-line values free of outer whitespace, reads back as exactly v1 … v6 |
| TwoL.MissingLines | 2l_app.py:61-72 | "1. A\n3. C" reads as A, "", C, "", "", "" |
| TwoL.RepeatedLine | 2l_app.py:61-72 | "1. A\n1. B" reads as B, "", "", "", "", "" |
| TwoL.FailureReadsEmpty | 2l_app.py:61-72 | a one-line failure reply "Error: …" reads as six empty fields |
| Keywords.HitFrom | 2l_app.py:93-95 | finds the first table entry, from a given index on, whose key occurs in the text, and otherwise finds that none does |
| Keywords.Lookup | 2l_app.py:93-96 | the result is the label of the first entry in table order whose key occurs in the text, or the default when no key occurs |
| Keywords.LowerKeys | 2l_app.py:94 | the table with each key lower-cased and its label and order kept |
| Keywords.Sector | 2l_app.py:80-96 | the first sector label, in table order, whose lower-cased key occurs in the lower-cased text, else "Unknown"; GuessSector computes it and SectorIsListed, BankBeforeLaterKeywords, CaseInsensitive state its properties |
| Keywords.AnnouncementType | 2l_app.py:98-118 | the first type label, in table order, whose key occurs in the lower-cased text, else "General"; DetectType computes it and AnnouncementTypeIsListed, NoTypeKeywordIsGeneral, CaseInsensitive state its properties |
| Keywords.CaseInsensitive | 2l_app.py:93-94 | both tags ignore case: the sector and the type of a text are those of its lower-cased text |
| Keywords.GuessSector | 2l_app.py:80-96 | the early-return loop over `sector_keywords` (lower-cased keys, lower-cased text) returns `Sector(text)`, the first-hit lookup with "Unknown" as default |
| Keywords.DetectType | 2l_app.py:98-118 | the early-return loop over `tag_keywords` returns `AnnouncementType(text)`, the first-hit lookup on the lower-cased text with "General" as default |
| Keywords.LookupLabel | 2l_app.py:93-96 | a lookup always returns one of the table's labels or the default |
| Keywords.SectorIsListed | 2l_app.py:81-96 | the sector is one of the nine sector names or "Unknown" |
| Keywords.AnnouncementTypeIsListed | 2l_app.py:99-118 | the type is one of the ten type names or "General" |
| Keywords.BankBeforeLaterKeywords | 2l_app.py:81-95 | a text naming "bank" in any case, and neither "pharma" nor "chemical", is "Financials", whatever later keys it holds |
| Keywords.BankAndSteel | 2l_app.py:81-95 | "Bank and Steel" is "Financials" |
| Keywords.ItInsideWord | 2l_app.py:88-95 | a key is matched as a substring and not as a word: "New unit" is "Technology" |
| Keywords.NoTypeKeywordIsGeneral | 2l_app.py:115-118 | a text with none of the type keys is "General" |
| Patterns.Leftmost | 2l_app.py:121 | the search result is a position where the pattern matches, with what it captured there, and the pattern matches at no earlier position; no result means it matches nowhere |
| Patterns.Run | 2l_app.py:121 | a greedy character-class run: every character in it is in the class, and the next one is not |
| Patterns.UrlSymbolAt | 2l_app.py:121 | a `/([A-Z]{1,10})_` match captures 1 to 10 capitals |
| Patterns.UrlSymbolAtMatches | 2l_app.py:121 | the scanner captures g at p exactly when the link holds '/', then g (1 to 10 capitals), then '_' at p |
| Patterns.BseSymbolAt | 2l_app.py:124 | a `BSE[:\s]+([A-Z]{1,10})` match captures 1 to 10 capitals |
| Patterns.BseSymbolAtMatches | 2l_app.py:124 | when the text holds "BSE", one or more colons or blanks, then capitals g that are all of the run or its first ten, the scanner captures g |
| Patterns.BseSymbolAtSound | 2l_app.py:124 | conversely, whatever the scanner captures has that shape |
| Patterns.ExtractSymbol | 2l_app.py:120-127 | the symbol is "Unknown" or 1 to 10 capitals |
| Patterns.SymbolFromUrl | 2l_app.py:121-123 | the capitals of the leftmost `/XYZ_` of the link win, whatever the text says |
| Patterns.SymbolFromText | 2l_app.py:124-126 | without a link match, the symbol is the capture of the leftmost BSE marker of the text |
| Patterns.SymbolUnknown | 2l_app.py:120-127 | the symbol is "Unknown" exactly when neither pattern matches anywhere |
| Patterns.NoUnderscoreNoUrlSymbol | 2l_app.py:121 | a link without '_' never supplies the symbol |
| Patterns.BseStopsAtDigits | 2l_app.py:124-126 | "BSE: ABC123", with a link that has no ticker, gives "ABC" |
| Patterns.SkipDateSep | 2l_app.py:130 | the optional `[-/]?` consumes zero or one character |
| Patterns.DateText | 2l_app.py:132-133 | the f-string "y-m-d" is 10 characters with '-' at indices 4 and 7 |
| Patterns.DateAt | 2l_app.py:130-133 | the date pattern tried at one position gives a 10-character date; DateAtMatches and DateAtSound state that it matches exactly where the digit pattern occurs |
| Patterns.DateAtMatches | 2l_app.py:130 | wherever the link holds 4 digits, an optional '-' or '/', 2 digits, an optional '-' or '/' and 2 digits, the scanner matches there and reports those digits as y-m-d |
| Patterns.DateAtSound | 2l_app.py:130 | conversely, every scanner match is such a digit pattern |
| Patterns.DateTextShape | 2l_app.py:132-133 | the reported date has 10 characters, '-' at indices 4 and 7, and elsewhere the digits of the three groups copied from the link |
| Patterns.DateFromUrl | 2l_app.py:130-133 | with a match in the link, the date is the leftmost match |
| Patterns.DateDefault | 2l_app.py:129-134 | with no match, the date is the supplied current date |
| Patterns.ExtractDate | 2l_app.py:129-134 | the date is the supplied current date or a 10-character y-m-d with '-' at indices 4 and 7 |
| Patterns.DateShape | 2l_app.py:129-134 | the date is the supplied one or a well-formed y-m-d |
| Patterns.DashedDateInPath | 2l_app.py:129-133 | ".../2023-07-15/filing.pdf" is dated "2023-07-15", whatever the current date |
| Patterns.WordEnd | 2l_app.py:77 | a `[A-Z][a-z]+` word is at least two characters long |
| Patterns.NextWordEnd | 2l_app.py:77 | one more ` [A-Z][a-z]+` iteration is at least three characters long |
| Patterns.SuffixEnd | 2l_app.py:77 | a suffix match is a space followed by at least one character |
| Patterns.Tail | 2l_app.py:77 | the greedy star with backtracking, then the suffix, matches at least a space and one more character |
| Patterns.CompanyAt | 2l_app.py:77 | a company match at p ends after p, within the text |
| Patterns.WordEndChain | 2l_app.py:77 | a word read by the scanner is a one-word chain, and no lower-case letter follows it |
| Patterns.ChainExtend | 2l_app.py:77 | one more star iteration extends the word chain |
| Patterns.SuffixEndSound | 2l_app.py:77 | what the suffix step reads is a space and one of Limited, Ltd, Industries, Corporation |
| Patterns.SuffixAt | 2l_app.py:77 | a suffix occurrence is exactly what the suffix step reads, since no alternative is a prefix of another, and it is itself a capitalised word |
| Patterns.TailSound | 2l_app.py:77 | after a word chain, what the tail matches completes a company name |
| Patterns.CompanyAtSound | 2l_app.py:77 | whatever the pattern matches at p is a company name: capitalised words separated by single spaces, then a space and a suffix |
| Patterns.ChainWord | 2l_app.py:77 | inside a word chain, the scanner reads each word whole, ending at the chain's end or at the next space |
| Patterns.TailReaches | 2l_app.py:77 | from any word end of a company name, the tail matches at least to the end of that name (the star may also take the suffix as a word and find a longer one) |
| Patterns.CompanyAtComplete | 2l_app.py:77 | wherever a company name starts, the pattern matches there, at least as far as the name |
| Patterns.CompanyNameSlice | 2l_app.py:77-78 | a company name inside the text is a company name on its own |
| Patterns.CompanyNameIsNotUnknown | 2l_app.py:77-78 | no company name is "Unknown" (a name holds a space) |
| Patterns.LeftmostBeatsEveryName | 2l_app.py:77 | the search finds a match that starts no later than any company name, and that reaches at least as far as any name starting where it starts |
| Patterns.CompanyFound | 2l_app.py:76-78 | a found company is the text's leftmost company name and, of the names starting there, the longest |
| Patterns.ExtractCompany | 2l_app.py:76-78 | `re.search` of the company pattern: the text of its match, or "Unknown"; CompanyFound, CompanyIsName, CompanyOccurs and CompanyUnknown state that it is the leftmost, longest company name of the text, or "Unknown" exactly when there is none |
| Patterns.CompanyIsName | 2l_app.py:77-78 | a found company is a company name in its own right |
| Patterns.CompanyOccurs | 2l_app.py:78 | a found company is a substring of the text |
| Patterns.CompanyUnknown | 2l_app.py:76-78 | the company is "Unknown" exactly when the text holds no company name |
| Patterns.NoLowerCaseNoCompany | 2l_app.py:77 | the match is case-sensitive: a text without lower-case letters names no company |
| Patterns.UpperCaseNameIsUnknown | 2l_app.py:77-78 | "TATA STEEL LIMITED" gives "Unknown" |
| Patterns.WholeCompanyName | 2l_app.py:77-78 | "Tata Steel Limited" is found whole: the star first takes "Limited" as a word, then gives it back to the suffix |
| Fetcher.ConcatAppend | 2l_app.py:26-27 | joining the pages of two consecutive batches is joining each batch and then the two results |
| Fetcher.Concat | 2l_app.py:25-27 | the page texts appended in page order; ConcatAppend and ConcatEmpty state its properties |
| Fetcher.PdfText | 2l_app.py:19-31 | the result of fetch_pdf_text after the download; FetchPdfText computes it and TextIsPrefix, NoTextGivesMarker, ErrorPrefix state what it is |
| Fetcher.ConcatEmpty | 2l_app.py:25-29 | the joined text is empty exactly when every page is |
| Fetcher.FetchPdfText | 2l_app.py:25-31 | the loop appending page texts, then the cut or the marker, computes `PdfText`; a failed download gives "Error: " and the cause |
| Fetcher.TextIsPrefix | 2l_app.py:29 | non-empty text is cut to its first min(length, 4000) characters, so it is never longer than 4000 |
| Fetcher.NoTextGivesMarker | 2l_app.py:29 | a PDF whose pages are all empty gives exactly "Error: No text found in PDF" |
| Fetcher.ErrorPrefix | 2l_app.py:29-31 | the result starts with "Error" exactly when the download failed, the PDF has no text, or its text itself starts with "Error" |
| Batch.ErrorRow | 2l_app.py:157 | the failure row has 12 fields: the link, "Unknown" three times and "Error" in the other eight |
| Batch.Columns | 2l_app.py:173-175 | the twelve column names, in order |
| Batch.IsFailure | 2l_app.py:156 | a fetched text is a failure when it starts with "Error"; ErrorPrefix states exactly when that happens |
| Batch.Tags | 2l_app.py:160-164 | the link and its five tags: symbol, company, sector, date, type |
| Batch.TaggedRow | 2l_app.py:160-169 | the tags followed by the six fields of the reply; TaggedRowFields states its twelve fields |
| Batch.RowFor | 2l_app.py:153-169 | the row for one link: the error row for a failure text, otherwise the tagged row of the text and its summary; FailedLinkRow and TaggedLinkRow state its fields |
| Batch.Prompts | 2l_app.py:156-166 | the texts passed to the summarizer, in link order; PromptsStep and PromptsAreTexts state its properties |
| Batch.Rows | 2l_app.py:151-169 | the output has exactly one row per link |
| Batch.RowsAt | 2l_app.py:151-169 | row i of the output is the row of link i |
| Batch.TagRow | 2l_app.py:160-169 | the tagging calls and the reply parse build the tagged row |
| Batch.RowsStep | 2l_app.py:169 | each step of the loop appends its link's row after the rows of the earlier links |
| Batch.PromptsStep | 2l_app.py:156-166 | each step adds the link's text to the summarizer's inputs exactly when it is not a failure |
| Batch.RunBatch | 2l_app.py:151-169 | the loop with its `continue` returns `Rows`, one row per link in input order, and calls the summarizer with exactly `Prompts`, the texts of the non-failed links in order |
| Batch.RowShape | 2l_app.py:169 | every row has one field per column (12), and field 0 is its link |
| Batch.FailedLinkRow | 2l_app.py:156-158 | a link whose text starts with "Error" gets "Unknown" in fields 1-3 and "Error" in fields 4-11 |
| Batch.TaggedLinkRow | 2l_app.py:160-169 | any other link gets symbol, company, sector, date and type of its text in fields 1-5, and in fields 6-11 the fields parsed from the summary of that text |
| Batch.TaggedRowFields | 2l_app.py:169 | a tagged row has 12 fields: the link, the five tags, then the six parsed fields |
| Batch.ErrorTextLooksFailed | 2l_app.py:156-157 | a PDF whose own text starts with "Error" gets the failure row |
| Batch.PromptsAreTexts | 2l_app.py:156-166 | the summarizer is called at most once per link, never with a failure text, and never with more than 4000 characters |
| Batch.AllFailedAsksNothing | 2l_app.py:156-158 | if every link fails, the summarizer is never called |

## Left out

- The Streamlit page, file uploader, button, progress bar, status line,
  error message and download button (2l_app.py:12-15, 138-150, 170,
  178-187) are presentation only.
- HTTP, the `temp.pdf` file and the PyMuPDF decode (2l_app.py:21-24,
  26-28) are I/O. `Fetcher.Download` stands for their outcome: the
  page texts in order, or the message of the exception that was raised.
  The exception text itself (`f"Error: {e}"`) is an input.
- The OpenAI call and its prompt (2l_app.py:35-59) are an external
  service. The summarizer is a function from text to reply, so the model
  treats it as deterministic. Likewise the fetch outcome is a function of the link, so a link
  listed twice gets the same outcome both times, which the network does
  not promise.
- pandas CSV reading, the DataFrame and the Excel writer (2l_app.py:141,
  143-144, 176, 181-187) are library wrappers. Links are taken as strings,
  and a missing or non-string `link` value is not modelled. The column
  order is the constant `Batch.Columns`.
- `time.sleep(1.2)` (2l_app.py:171) is timing only.
- `datetime.today()` (2l_app.py:134) is replaced by a `today` parameter.
  It is one value for the whole batch, whereas the code reads the clock
  again for each row whose link holds no date (2l_app.py:160), so rows
  built across midnight could differ in the code.
- Unicode is not modelled. `isspace` and `\s` are their ASCII members
  (space, \t to \r, \x1c to \x1f); `lower()` folds only A-Z, and `\d` is
  0-9.
- The regular-expression engine is not modelled in general. Each of the
  four patterns is written as its own scanner, and a lemma proves that
  scanner against a description of the pattern's matches.

/** The PDF ingestion pass (backend/app/ingestion/ingest_pdfs.py): extract each
    intake PDF's text, cut it into 500-word chunks, embed every chunk, stage one
    row per chunk, commit once per file and move the file to the processed
    directory. */
module IngestPdfs {
  import opened Wrappers
  import opened TextSplit
  import opened Store

  /** Words per chunk. */
  const ChunkSize: nat := 500

  /** ceil(n / d). */
  function CeilDiv(n: nat, d: nat): nat
    requires d > 0
  {
    (n + d - 1) / d
  }

  /** Concatenation of a list of word lists. */
  function Flatten(xss: seq<seq<string>>): seq<string>
    decreases |xss|
  {
    if xss == [] then [] else xss[0] + Flatten(xss[1..])
  }

  // ---------------------------------------------------------------------------
  // chunk_text

  /** The windows `words[i:i + size]` for `i in range(0, len(words), size)`. */
  function Windows(words: seq<string>, size: nat): seq<seq<string>>
    requires size > 0
    decreases |words|
  {
    if words == [] then []
    else if |words| <= size then [words]
    else [words[..size]] + Windows(words[size..], size)
  }

  /** `" ".join` of each window. */
  function JoinEach(windows: seq<seq<string>>): (r: seq<string>)
    ensures |r| == |windows|
  {
    seq(|windows|, i requires 0 <= i < |windows| => Join(" ", windows[i]))
  }

  /** `list(chunk_text(text, size))`. */
  function ChunkText(text: string, size: nat): seq<string>
    requires size > 0
  {
    JoinEach(Windows(Words(text), size))
  }

  lemma MultipleBetween(k: int, d: int)
    requires d > 0 && -d < k * d < d
    ensures k == 0
  {
  }

  lemma DivStep(n: nat, d: nat)
    requires d > 0
    ensures (n + d) / d == n / d + 1
  {
    var q, r := n / d, n % d;
    var q', r' := (n + d) / d, (n + d) % d;
    assert (q' - q - 1) * d == r - r';
    MultipleBetween(q' - q - 1, d);
  }

  /** There are ceil(N / size) windows. */
  lemma {:induction false} WindowCount(words: seq<string>, size: nat)
    requires size > 0
    ensures |Windows(words, size)| == CeilDiv(|words|, size)
    decreases |words|
  {
    if |words| > size {
      WindowCount(words[size..], size);
      DivStep(|words| - size + size - 1, size);
    }
  }

  /** Window `k` is the slice `words[k * size : (k + 1) * size]`, clamped to the
      end as Python clamps slices. */
  lemma WindowAt(words: seq<string>, size: nat, k: nat)
    requires size > 0 && k < |Windows(words, size)|
    ensures k * size < |words|
    ensures Windows(words, size)[k] == words[k * size .. Min(k * size + size, |words|)]
  {
    WindowAtOffset(words, size, k);
    OffsetIsProduct(k, size);
  }

  /** `k * size`, counted up one window at a time. */
  function Offset(k: nat, size: nat): nat {
    if k == 0 then 0 else Offset(k - 1, size) + size
  }

  lemma {:induction false} OffsetIsProduct(k: nat, size: nat)
    ensures Offset(k, size) == k * size
  {
    if k > 0 {
      OffsetIsProduct(k - 1, size);
      assert k * size == (k - 1) * size + size;
    }
  }

  lemma {:induction false} WindowAtOffset(words: seq<string>, size: nat, k: nat)
    requires size > 0 && k < |Windows(words, size)|
    ensures Offset(k, size) < |words|
    ensures Windows(words, size)[k] == words[Offset(k, size) .. Min(Offset(k, size) + size, |words|)]
    decreases |words|
  {
    if k == 0 {
      if |words| <= size {
        assert words[0 .. Min(size, |words|)] == words;
      }
    } else {
      assert |words| > size;
      var rest := words[size..];
      assert Windows(words, size) == [words[..size]] + Windows(rest, size);
      assert Windows(words, size)[k] == Windows(rest, size)[k - 1];
      WindowAtOffset(rest, size, k - 1);
      var a := Offset(k - 1, size);
      var b := Min(a + size, |rest|);
      SliceOfDrop(words, size, a, b);
    }
  }

  lemma SliceOfDrop(s: seq<string>, d: nat, a: nat, b: nat)
    requires d <= |s| && a <= b <= |s| - d
    ensures s[d..][a..b] == s[d + a..d + b]
  {
    assert forall i :: 0 <= i < b - a ==> s[d..][a..b][i] == s[d + a + i];
  }

  /** The windows cover the words exactly once, in order. */
  lemma {:induction false} WindowsFlatten(words: seq<string>, size: nat)
    requires size > 0
    ensures Flatten(Windows(words, size)) == words
    decreases |words|
  {
    if words == [] {
    } else if |words| <= size {
      assert Flatten([words]) == words + Flatten([]);
    } else {
      WindowsFlatten(words[size..], size);
      assert words == words[..size] + words[size..];
    }
  }

  /** Splitting the joined windows again gives back the windows' words. */
  lemma {:induction false} ConcatWordsOfJoinEach(windows: seq<seq<string>>)
    requires forall i, j :: 0 <= i < |windows| && 0 <= j < |windows[i]| ==> IsWord(windows[i][j])
    ensures ConcatWords(JoinEach(windows)) == Flatten(windows)
    decreases |windows|
  {
    if windows != [] {
      assert JoinEach(windows)[1..] == JoinEach(windows[1..]);
      JoinSplitRoundTrip(windows[0]);
      ConcatWordsOfJoinEach(windows[1..]);
    }
  }

  /** Every window element is one of the words, so a word. */
  lemma WindowsOfWords(words: seq<string>, size: nat)
    requires size > 0
    requires forall i :: 0 <= i < |words| ==> IsWord(words[i])
    ensures forall i, j :: 0 <= i < |Windows(words, size)| && 0 <= j < |Windows(words, size)[i]| ==>
                             IsWord(Windows(words, size)[i][j])
  {
    forall i, j | 0 <= i < |Windows(words, size)| && 0 <= j < |Windows(words, size)[i]|
      ensures IsWord(Windows(words, size)[i][j])
    {
      WindowAt(words, size, i);
    }
  }

  /** `chunk_text` yields ceil(N / size) chunks for a text of N words, and none
      exactly when the text is all whitespace. */
  lemma ChunkCount(text: string, size: nat)
    requires size > 0
    ensures |ChunkText(text, size)| == CeilDiv(|Words(text)|, size)
    ensures ChunkText(text, size) == [] <==> forall i :: 0 <= i < |text| ==> IsSpace(text[i])
  {
    WindowCount(Words(text), size);
    WordsEmptyIffBlank(text);
  }

  /** Re-splitting chunk `k` returns exactly its slice of `text.split()`: `size`
      words for every chunk but the last, between 1 and `size` for the last, so
      no chunk is empty. */
  lemma ChunkWords(text: string, size: nat, k: nat)
    requires size > 0 && k < |ChunkText(text, size)|
    ensures var n := |Words(text)|;
            && k * size < n
            && Words(ChunkText(text, size)[k]) == Words(text)[k * size .. Min(k * size + size, n)]
            && (k < |ChunkText(text, size)| - 1 ==> |Words(ChunkText(text, size)[k])| == size)
            && 1 <= |Words(ChunkText(text, size)[k])| <= size
            && ChunkText(text, size)[k] != ""
  {
    var words := Words(text);
    var n := |words|;
    WindowAt(words, size, k);
    WindowsOfWords(words, size);
    JoinSplitRoundTrip(Windows(words, size)[k]);
    WindowCount(words, size);
    if k < |ChunkText(text, size)| - 1 {
      assert (k + 1) * size < n by {
        WindowAt(words, size, k + 1);
      }
    }
    assert Words("") == [];
  }

  /** Round trip: the chunks' words, in chunk order, are `text.split()`. */
  lemma ChunkRoundTrip(text: string, size: nat)
    requires size > 0
    ensures ConcatWords(ChunkText(text, size)) == Words(text)
  {
    WindowsOfWords(Words(text), size);
    ConcatWordsOfJoinEach(Windows(Words(text), size));
    WindowsFlatten(Words(text), size);
  }

  // ---------------------------------------------------------------------------
  // extract_pdf_text

  /** What `PdfReader(path).pages[i].extract_text()` gives for each page, `None`
      standing for a page without a text layer. */
  type Pages = seq<Option<string>>

  /** `if text:` keeps a page exactly when its text is neither `None` nor "". */
  predicate HasText(page: Option<string>) {
    page.Some? && page.value != ""
  }

  /** The texts of the pages that have text, in page order. */
  function TextPages(pages: Pages): (r: seq<string>)
    ensures forall i :: 0 <= i < |r| ==> r[i] != ""
    decreases |pages|
  {
    if pages == [] then []
    else
      var last := pages[|pages| - 1];
      TextPages(pages[..|pages| - 1]) + (if HasText(last) then [last.value] else [])
  }

  /** The text of a whole PDF: its text pages joined with newlines. */
  function PdfText(pages: Pages): string {
    Join("\n", TextPages(pages))
  }

  /** A page's text ends up in the PDF text exactly when the page has text. */
  lemma {:induction false} TextPagesMembership(pages: Pages, s: string)
    ensures s in TextPages(pages) <==> s != "" && Some(s) in pages
    decreases |pages|
  {
    if pages != [] {
      var init := pages[..|pages| - 1];
      TextPagesMembership(init, s);
      assert pages == init + [pages[|pages| - 1]];
    }
  }

  /** The page filter keeps page order: the pages of a split document give the
      text pages of its first part followed by those of its second. */
  lemma {:induction false} TextPagesAppend(a: Pages, b: Pages)
    ensures TextPages(a + b) == TextPages(a) + TextPages(b)
    decreases |b|
  {
    if b == [] {
      assert a + b == a;
    } else {
      var init := b[..|b| - 1];
      assert (a + b)[..|a + b| - 1] == a + init;
      TextPagesAppend(a, init);
    }
  }

  /** A PDF whose pages carry no text gives "", and only such a PDF does. */
  lemma PdfTextEmpty(pages: Pages)
    ensures PdfText(pages) == "" <==> forall i :: 0 <= i < |pages| ==> !HasText(pages[i])
  {
    JoinEmptyIffNoParts("\n", TextPages(pages));
    if TextPages(pages) != [] {
      var s := TextPages(pages)[0];
      TextPagesMembership(pages, s);
      var i :| 0 <= i < |pages| && pages[i] == Some(s);
      assert HasText(pages[i]);
    } else {
      forall i | 0 <= i < |pages| ensures !HasText(pages[i]) {
        if HasText(pages[i]) {
          TextPagesMembership(pages, pages[i].value);
        }
      }
    }
  }

  /** The newline join neither merges nor splits words: the PDF's words are its
      text pages' words, page by page. */
  lemma PdfTextWords(pages: Pages)
    ensures Words(PdfText(pages)) == ConcatWords(TextPages(pages))
  {
    assert IsSpace('\n');
    WordsOfJoin('\n', TextPages(pages));
  }

  /** `extract_pdf_text(file_path)`: `read(name)` is what pypdf makes of the file,
      `None` when `PdfReader` raises. */
  method ExtractPdfText(name: string, read: string -> Option<Pages>) returns (text: Option<string>)
    ensures read(name).None? ==> text.None?
    ensures read(name).Some? ==> text == Some(PdfText(read(name).value))
  {
    var reader := read(name);
    if reader.None? {
      return None;
    }
    var pages := [];
    var all := reader.value;
    for i := 0 to |all|
      invariant pages == TextPages(all[..i])
    {
      assert all[..i + 1][..i] == all[..i];
      var t := all[i];
      if HasText(t) {
        pages := pages + [t.value];
      }
    }
    assert all[..|all|] == all;
    text := Some(Join("\n", pages));
  }

  // ---------------------------------------------------------------------------
  // ingest_pdfs

  /** `file.endswith(".pdf")`, case-sensitive. */
  predicate IsPdf(name: string) {
    |name| >= 4 && name[|name| - 4..] == ".pdf"
  }

  /** The directory entries that the pass picks up, in listing order. */
  function PdfEntries(listing: seq<string>): (r: seq<string>)
    ensures forall i :: 0 <= i < |r| ==> IsPdf(r[i]) && r[i] in listing
    decreases |listing|
  {
    if listing == [] then []
    else
      var last := listing[|listing| - 1];
      PdfEntries(listing[..|listing| - 1]) + (if IsPdf(last) then [last] else [])
  }

  /** The filter keeps listing order: the PDF entries of `a + b` are those of `a`
      followed by those of `b`. */
  lemma {:induction false} PdfEntriesAppend(a: seq<string>, b: seq<string>)
    ensures PdfEntries(a + b) == PdfEntries(a) + PdfEntries(b)
    decreases |b|
  {
    if b == [] {
      assert a + b == a;
    } else {
      var init := b[..|b| - 1];
      assert (a + b)[..|a + b| - 1] == a + init;
      PdfEntriesAppend(a, init);
    }
  }

  predicate Distinct(xs: seq<string>) {
    forall i, j :: 0 <= i < j < |xs| ==> xs[i] != xs[j]
  }

  /** `listing` is what `os.listdir` returns for a directory holding `names`:
      every name once, in some order. */
  ghost predicate Lists(listing: seq<string>, names: set<string>) {
    Distinct(listing) && forall x :: x in listing <==> x in names
  }

  /** What the pass does with one PDF: the rows it stages (in chunk order) and
      whether it got through extraction and every embedding. */
  datatype FileRun = FileRun(name: string, rows: seq<NewRow>, complete: bool)

  /** How many leading chunks embed before the first embedding failure. */
  function EmbeddedPrefix(chunks: seq<string>, embed: string -> Option<Embedding>): (k: nat)
    ensures k <= |chunks|
    ensures forall j :: 0 <= j < k ==> embed(chunks[j]).Some?
    ensures k < |chunks| ==> embed(chunks[k]).None?
    decreases |chunks|
  {
    if chunks == [] || embed(chunks[0]).None? then 0
    else 1 + EmbeddedPrefix(chunks[1..], embed)
  }

  /** One row per chunk, `Document(file_name=name, chunk=chunk, embedding=...)`. */
  function ChunkRows(name: string, chunks: seq<string>, embed: string -> Option<Embedding>): (rows: seq<NewRow>)
    requires forall j :: 0 <= j < |chunks| ==> embed(chunks[j]).Some?
    ensures |rows| == |chunks|
  {
    seq(|chunks|, j requires 0 <= j < |chunks| => NewRow(name, chunks[j], embed(chunks[j]).value))
  }

  /** The chunks of a PDF's text. */
  function FileChunks(pages: Pages): seq<string> {
    ChunkText(PdfText(pages), ChunkSize)
  }

  function RunFile(name: string, read: string -> Option<Pages>, embed: string -> Option<Embedding>): FileRun {
    match read(name)
    case None => FileRun(name, [], false)
    case Some(pages) =>
      var chunks := FileChunks(pages);
      var k := EmbeddedPrefix(chunks, embed);
      FileRun(name, ChunkRows(name, chunks[..k], embed), k == |chunks|)
  }

  /** The last file visited failed, which ends the pass. */
  predicate Halted(runs: seq<FileRun>) {
    |runs| > 0 && !runs[|runs| - 1].complete
  }

  /** The files a pass over `listing` visits, in order: non-PDF entries are
      skipped, and there is no exception handler, so the first failure ends it. */
  function Visited(listing: seq<string>, read: string -> Option<Pages>, embed: string -> Option<Embedding>): seq<FileRun>
    decreases |listing|
  {
    if listing == [] then []
    else
      var before := Visited(listing[..|listing| - 1], read, embed);
      var file := listing[|listing| - 1];
      if Halted(before) || !IsPdf(file) then before
      else before + [RunFile(file, read, embed)]
  }

  /** Names of the files the pass moved to the processed directory. */
  function Moved(runs: seq<FileRun>): set<string>
    decreases |runs|
  {
    if runs == [] then {}
    else
      var last := runs[|runs| - 1];
      Moved(runs[..|runs| - 1]) + (if last.complete then {last.name} else {})
  }

  /** Rows committed by the pass, in staging order. */
  function CommittedRows(runs: seq<FileRun>): seq<NewRow>
    decreases |runs|
  {
    if runs == [] then []
    else
      var last := runs[|runs| - 1];
      CommittedRows(runs[..|runs| - 1]) + (if last.complete then last.rows else [])
  }

  /** Rows still staged in the session when the pass stops. */
  function PendingRows(runs: seq<FileRun>): seq<NewRow> {
    if Halted(runs) then runs[|runs| - 1].rows else []
  }

  /** The session and filesystem calls the pass makes, in order. */
  datatype Effect = Added(row: NewRow) | Committed | MovedFile(name: string)

  function StageEffects(rows: seq<NewRow>): (r: seq<Effect>)
    ensures |r| == |rows|
  {
    seq(|rows|, i requires 0 <= i < |rows| => Added(rows[i]))
  }

  /** A file's `db.add` calls, then, if it got through, one `db.commit` and the move. */
  function RunEffects(run: FileRun): seq<Effect> {
    StageEffects(run.rows) + (if run.complete then [Committed, MovedFile(run.name)] else [])
  }

  function Effects(runs: seq<FileRun>): seq<Effect>
    decreases |runs|
  {
    if runs == [] then [] else Effects(runs[..|runs| - 1]) + RunEffects(runs[|runs| - 1])
  }

  datatype PassOutcome = Completed | Failed(file: string)

  /** The pass visits exactly the PDF entries of the listing, in order, up to and
      including the first one that fails; every file before it got through. */
  lemma {:induction false} PassVisitsPdfPrefix(listing: seq<string>, read: string -> Option<Pages>, embed: string -> Option<Embedding>)
    ensures var runs := Visited(listing, read, embed);
            && |runs| <= |PdfEntries(listing)|
            && (forall i :: 0 <= i < |runs| ==> runs[i] == RunFile(PdfEntries(listing)[i], read, embed))
            && (forall i :: 0 <= i < |runs| - 1 ==> runs[i].complete)
            && (!Halted(runs) ==> |runs| == |PdfEntries(listing)|)
    decreases |listing|
  {
    if listing != [] {
      var init := listing[..|listing| - 1];
      var file := listing[|listing| - 1];
      PassVisitsPdfPrefix(init, read, embed);
      var before := Visited(init, read, embed);
      var entries := PdfEntries(init);
      assert PdfEntries(listing) == entries + (if IsPdf(file) then [file] else []);
      if !Halted(before) && IsPdf(file) {
        var runs := before + [RunFile(file, read, embed)];
        assert Visited(listing, read, embed) == runs;
        assert |before| == |entries|;
        forall i | 0 <= i < |runs| ensures runs[i] == RunFile(PdfEntries(listing)[i], read, embed) {
          if i < |before| {
            assert runs[i] == before[i] && PdfEntries(listing)[i] == entries[i];
          }
        }
      } else {
        assert Visited(listing, read, embed) == before;
        forall i | 0 <= i < |before| ensures before[i] == RunFile(PdfEntries(listing)[i], read, embed) {
          assert PdfEntries(listing)[i] == entries[i];
        }
      }
    }
  }

  /** Once a prefix of the listing has halted the pass, the rest is never visited. */
  lemma {:induction false} PassStopsAtFailure(listing: seq<string>, k: nat, read: string -> Option<Pages>, embed: string -> Option<Embedding>)
    requires k <= |listing| && Halted(Visited(listing[..k], read, embed))
    ensures Visited(listing, read, embed) == Visited(listing[..k], read, embed)
    decreases |listing| - k
  {
    if k < |listing| {
      var init := listing[..|listing| - 1];
      assert init[..k] == listing[..k];
      PassStopsAtFailure(init, k, read, embed);
    } else {
      assert listing[..k] == listing;
    }
  }

  /** What `RunFile` stages for a file: the rows of its leading chunks, one per
      chunk and in chunk order, stopping at the first chunk that does not embed;
      nothing when the PDF cannot be read. */
  lemma RunFileRows(name: string, read: string -> Option<Pages>, embed: string -> Option<Embedding>)
    ensures var run := RunFile(name, read, embed);
            && run.name == name
            && (read(name).None? ==> run.rows == [] && !run.complete)
            && (read(name).Some? ==>
                 var chunks := FileChunks(read(name).value);
                 && |run.rows| <= |chunks|
                 && (run.complete <==> |run.rows| == |chunks|)
                 && (!run.complete ==> embed(chunks[|run.rows|]).None?)
                 && forall j :: 0 <= j < |run.rows| ==>
                      run.rows[j] == NewRow(name, chunks[j], embed(chunks[j]).value))
  {
  }

  /** Every committed row belongs to a file that was moved. */
  lemma {:induction false} CommittedRowsOfMoved(runs: seq<FileRun>, read: string -> Option<Pages>, embed: string -> Option<Embedding>)
    requires forall i :: 0 <= i < |runs| ==> runs[i] == RunFile(runs[i].name, read, embed)
    ensures forall r :: r in CommittedRows(runs) ==> r.fileName in Moved(runs)
    decreases |runs|
  {
    if runs != [] {
      var last := runs[|runs| - 1];
      CommittedRowsOfMoved(runs[..|runs| - 1], read, embed);
      RunFileRows(last.name, read, embed);
    }
  }

  lemma {:induction false} MovedNames(runs: seq<FileRun>)
    ensures forall n :: n in Moved(runs) <==> exists i :: 0 <= i < |runs| && runs[i].complete && runs[i].name == n
    decreases |runs|
  {
    if runs != [] {
      var init := runs[..|runs| - 1];
      MovedNames(init);
      forall n | n in Moved(runs)
        ensures exists i :: 0 <= i < |runs| && runs[i].complete && runs[i].name == n
      {
        if n in Moved(init) {
          var i :| 0 <= i < |init| && init[i].complete && init[i].name == n;
          assert runs[i] == init[i];
        } else {
          assert runs[|runs| - 1].name == n;
        }
      }
      forall n | exists i :: 0 <= i < |runs| && runs[i].complete && runs[i].name == n
        ensures n in Moved(runs)
      {
        var i :| 0 <= i < |runs| && runs[i].complete && runs[i].name == n;
        if i < |init| {
          assert init[i] == runs[i];
        }
      }
    }
  }

  /** Only PDF entries of the listing are moved; everything else in the intake
      directory, the `processed` subdirectory included, stays where it is. */
  lemma MovedArePdfEntries(listing: seq<string>, read: string -> Option<Pages>, embed: string -> Option<Embedding>)
    ensures forall n :: n in Moved(Visited(listing, read, embed)) ==> IsPdf(n) && n in listing
  {
    var runs := Visited(listing, read, embed);
    PassVisitsPdfPrefix(listing, read, embed);
    MovedNames(runs);
    forall n | n in Moved(runs) ensures IsPdf(n) && n in listing {
      var i :| 0 <= i < |runs| && runs[i].complete && runs[i].name == n;
      RunFileRows(PdfEntries(listing)[i], read, embed);
    }
  }

  lemma {:induction false} PdfEntriesDistinct(listing: seq<string>)
    requires Distinct(listing)
    ensures Distinct(PdfEntries(listing))
    decreases |listing|
  {
    if listing != [] {
      var init := listing[..|listing| - 1];
      PdfEntriesDistinct(init);
      assert listing[|listing| - 1] !in init;
    }
  }

  /** Atomicity: when a file fails, none of its rows is committed, and it stays
      in the intake directory for a later pass. */
  lemma FailedFileNotCommitted(listing: seq<string>, read: string -> Option<Pages>, embed: string -> Option<Embedding>)
    requires Distinct(listing) && Halted(Visited(listing, read, embed))
    ensures var runs := Visited(listing, read, embed);
            var failed := runs[|runs| - 1].name;
            && failed !in Moved(runs)
            && forall r :: r in CommittedRows(runs) ==> r.fileName != failed
  {
    var runs := Visited(listing, read, embed);
    var entries := PdfEntries(listing);
    PassVisitsPdfPrefix(listing, read, embed);
    PdfEntriesDistinct(listing);
    forall i | 0 <= i < |runs| ensures runs[i] == RunFile(runs[i].name, read, embed) {
      RunFileRows(entries[i], read, embed);
    }
    CommittedRowsOfMoved(runs, read, embed);
    MovedNames(runs);
    RunFileRows(entries[|runs| - 1], read, embed);
  }

  /** A later pass over what is left in the intake directory never re-ingests a
      moved file; after a pass without failure it ingests nothing at all. */
  lemma SecondPassSkipsIngested(listing: seq<string>, intake: set<string>, listing2: seq<string>,
                                read: string -> Option<Pages>, embed: string -> Option<Embedding>)
    requires Lists(listing, intake)
    requires Lists(listing2, intake - Moved(Visited(listing, read, embed)))
    ensures forall i :: 0 <= i < |Visited(listing2, read, embed)| ==>
              Visited(listing2, read, embed)[i].name !in Moved(Visited(listing, read, embed))
    ensures !Halted(Visited(listing, read, embed)) ==> Visited(listing2, read, embed) == []
  {
    var runs := Visited(listing, read, embed);
    var runs2 := Visited(listing2, read, embed);
    PassVisitsPdfPrefix(listing2, read, embed);
    forall i | 0 <= i < |runs2| ensures runs2[i].name !in Moved(runs) {
      RunFileRows(PdfEntries(listing2)[i], read, embed);
    }
    if !Halted(runs) {
      var entries := PdfEntries(listing);
      PassVisitsPdfPrefix(listing, read, embed);
      MovedNames(runs);
      forall x | x in intake && IsPdf(x) ensures x in Moved(runs) {
        PdfEntriesComplete(listing, x);
        var i :| 0 <= i < |entries| && entries[i] == x;
        RunFileRows(entries[i], read, embed);
        assert runs[i].complete;
      }
      NoPdfEntries(listing2);
    }
  }

  lemma NoPdfEntries(listing: seq<string>)
    requires forall x :: x in listing ==> !IsPdf(x)
    ensures PdfEntries(listing) == []
  {
  }

  lemma {:induction false} PdfEntriesComplete(listing: seq<string>, n: string)
    requires n in listing && IsPdf(n)
    ensures n in PdfEntries(listing)
    decreases |listing|
  {
    var init := listing[..|listing| - 1];
    if n != listing[|listing| - 1] {
      assert n in init;
      PdfEntriesComplete(init, n);
    }
  }

  /** The intake directory, the processed directory and the database session the
      pass works on. */
  class IngestState {
    /** Entry names in `PDF_DIR`. */
    var intake: set<string>
    /** Entry names in `PROCESSED_DIR`. */
    var processed: set<string>
    /** Rows added to the open session and not yet committed. */
    var staged: seq<NewRow>
    /** Rows committed to `test.documents`. */
    var table: seq<NewRow>
    /** Every call made on the session and the filesystem so far. */
    ghost var effects: seq<Effect>

    constructor (intake: set<string>, processed: set<string>, table: seq<NewRow>)
      ensures this.intake == intake && this.processed == processed && this.table == table
      ensures staged == [] && effects == []
    {
      this.intake := intake;
      this.processed := processed;
      this.table := table;
      staged := [];
      effects := [];
    }

    /** `SessionLocal()`: a fresh session has nothing staged. */
    method OpenSession()
      modifies this`staged
      ensures staged == []
    {
      staged := [];
    }

    /** `db.add(doc)`. */
    method Add(row: NewRow)
      modifies this`staged, this`effects
      ensures staged == old(staged) + [row]
      ensures effects == old(effects) + [Added(row)]
    {
      staged := staged + [row];
      effects := effects + [Added(row)];
    }

    /** `db.commit()`: everything staged lands in the table, in staging order. */
    method Commit()
      modifies this`staged, this`table, this`effects
      ensures table == old(table) + old(staged) && staged == []
      ensures effects == old(effects) + [Committed]
    {
      table := table + staged;
      staged := [];
      effects := effects + [Committed];
    }

    /** `shutil.move(PDF_DIR / name, PROCESSED_DIR / name)`; the source file must exist. */
    method MoveToProcessed(name: string)
      requires name in intake
      modifies this`intake, this`processed, this`effects
      ensures intake == old(intake) - {name} && processed == old(processed) + {name}
      ensures effects == old(effects) + [MovedFile(name)]
    {
      intake := intake - {name};
      processed := processed + {name};
      effects := effects + [MovedFile(name)];
    }
  }

  /** How the summaries of a pass grow when one more file is visited. */
  lemma PassSummariesStep(runs: seq<FileRun>, run: FileRun)
    ensures var next := runs + [run];
            && Moved(next) == Moved(runs) + (if run.complete then {run.name} else {})
            && CommittedRows(next) == CommittedRows(runs) + (if run.complete then run.rows else [])
            && Effects(next) == Effects(runs) + RunEffects(run)
  {
    assert (runs + [run])[..|runs|] == runs;
  }

  /** The inner loop of the pass: embed each chunk and stage its row, stopping
      at the first chunk whose embedding raises. */
  method StageChunks(st: IngestState, file: string, chunks: seq<string>, embed: string -> Option<Embedding>)
    returns (ok: bool)
    modifies st`staged, st`effects
    ensures var k := EmbeddedPrefix(chunks, embed);
            && ok == (k == |chunks|)
            && st.staged == old(st.staged) + ChunkRows(file, chunks[..k], embed)
            && st.effects == old(st.effects) + StageEffects(ChunkRows(file, chunks[..k], embed))
  {
    ghost var staged0, effects0 := st.staged, st.effects;
    for j := 0 to |chunks|
      invariant forall jj :: 0 <= jj < j ==> embed(chunks[jj]).Some?
      invariant st.staged == staged0 + ChunkRows(file, chunks[..j], embed)
      invariant st.effects == effects0 + StageEffects(ChunkRows(file, chunks[..j], embed))
    {
      var e := embed(chunks[j]);
      if e.None? {
        return false;
      }
      st.Add(NewRow(file, chunks[j], e.value));
      assert ChunkRows(file, chunks[..j + 1], embed) == ChunkRows(file, chunks[..j], embed) + [NewRow(file, chunks[j], e.value)];
    }
    assert chunks[..|chunks|] == chunks;
    ok := true;
  }

  /** One iteration of the pass for a PDF: extract, chunk, stage, and on success
      commit and move the file. */
  method IngestFile(st: IngestState, file: string, read: string -> Option<Pages>, embed: string -> Option<Embedding>)
    returns (ok: bool)
    requires st.staged == [] && file in st.intake
    modifies st
    ensures var run := RunFile(file, read, embed);
            && ok == run.complete
            && st.staged == (if ok then [] else run.rows)
            && st.table == old(st.table) + (if ok then run.rows else [])
            && st.intake == old(st.intake) - (if ok then {file} else {})
            && st.processed == old(st.processed) + (if ok then {file} else {})
            && st.effects == old(st.effects) + RunEffects(run)
  {
    var text := ExtractPdfText(file, read);
    if text.None? {
      return false;
    }
    var chunks := ChunkText(text.value, ChunkSize);
    assert chunks == FileChunks(read(file).value);
    ok := StageChunks(st, file, chunks, embed);
    ghost var run := RunFile(file, read, embed);
    assert run.rows == st.staged && run.complete == ok;
    if ok {
      st.Commit();
      st.MoveToProcessed(file);
    }
  }

  /** `ingest_pdfs()` over the directory listing `listing` of `st.intake`.
      `read` stands for pypdf and `embed` for the embedding service; `None` from
      either is an exception, which ends the pass (there is no handler). */
  method RunIngestion(st: IngestState, listing: seq<string>,
                      read: string -> Option<Pages>, embed: string -> Option<Embedding>)
    returns (outcome: PassOutcome)
    requires Lists(listing, st.intake)
    modifies st
    ensures var runs := Visited(listing, read, embed);
            && st.intake == old(st.intake) - Moved(runs)
            && st.processed == old(st.processed) + Moved(runs)
            && st.table == old(st.table) + CommittedRows(runs)
            && st.staged == PendingRows(runs)
            && st.effects == old(st.effects) + Effects(runs)
            && outcome == (if Halted(runs) then Failed(runs[|runs| - 1].name) else Completed)
  {
    st.OpenSession();
    ghost var start := Snapshot(st.intake, st.processed, st.table, st.effects);
    for i := 0 to |listing|
      invariant !Halted(Visited(listing[..i], read, embed))
      invariant st.staged == []
      invariant Reflects(st, start, Visited(listing[..i], read, embed))
    {
      var ok := VisitEntry(st, start, listing, i, read, embed);
      if !ok {
        PassStopsAtFailure(listing, i + 1, read, embed);
        return Failed(listing[i]);
      }
    }
    assert listing[..|listing|] == listing;
    outcome := Completed;
  }

  /** One iteration of the loop of `ingest_pdfs`: skip a non-PDF entry, or
      ingest a PDF; `ok` is false when the file raised. */
  method VisitEntry(st: IngestState, ghost start: Snapshot, listing: seq<string>, i: nat,
                    read: string -> Option<Pages>, embed: string -> Option<Embedding>)
    returns (ok: bool)
    requires i < |listing| && Lists(listing, start.intake)
    requires !Halted(Visited(listing[..i], read, embed))
    requires st.staged == [] && Reflects(st, start, Visited(listing[..i], read, embed))
    modifies st
    ensures var runs := Visited(listing[..i + 1], read, embed);
            && Reflects(st, start, runs)
            && (ok <==> !Halted(runs))
            && st.staged == PendingRows(runs)
            && (!ok ==> runs[|runs| - 1].name == listing[i])
  {
    var file := listing[i];
    PassStep(listing, i, read, embed);
    if IsPdf(file) {
      ok := VisitPdf(st, start, listing, i, read, embed);
    } else {
      assert Visited(listing[..i + 1], read, embed) == Visited(listing[..i], read, embed);
      ok := true;
    }
  }

  /** The PDF case of `VisitEntry`. */
  method VisitPdf(st: IngestState, ghost start: Snapshot, listing: seq<string>, i: nat,
                  read: string -> Option<Pages>, embed: string -> Option<Embedding>)
    returns (ok: bool)
    requires i < |listing| && Lists(listing, start.intake) && IsPdf(listing[i])
    requires !Halted(Visited(listing[..i], read, embed))
    requires st.staged == [] && Reflects(st, start, Visited(listing[..i], read, embed))
    modifies st
    ensures var runs := Visited(listing[..i], read, embed) + [RunFile(listing[i], read, embed)];
            && Reflects(st, start, runs)
            && (ok <==> !Halted(runs))
            && st.staged == PendingRows(runs)
  {
    var file := listing[i];
    ghost var before := Visited(listing[..i], read, embed);
    ghost var run := RunFile(file, read, embed);
    ghost var prev := Snapshot(st.intake, st.processed, st.table, st.effects);
    NextNotMoved(listing, i, read, embed);
    ok := IngestFile(st, file, read, embed);
    SnapshotStep(start, prev, Snapshot(st.intake, st.processed, st.table, st.effects), before, run);
    assert (before + [run])[|before|] == run;
  }

  /** The state of the directories and the table at some moment. */
  datatype Snapshot = Snapshot(intake: set<string>, processed: set<string>, table: seq<NewRow>, effects: seq<Effect>)

  /** `st` is `start` after the files `runs` were visited. */
  ghost predicate Reflects(st: IngestState, start: Snapshot, runs: seq<FileRun>)
    reads st
  {
    SnapshotReflects(Snapshot(st.intake, st.processed, st.table, st.effects), start, runs)
  }

  ghost predicate SnapshotReflects(now: Snapshot, start: Snapshot, runs: seq<FileRun>) {
    && now.intake == start.intake - Moved(runs)
    && now.processed == start.processed + Moved(runs)
    && now.table == start.table + CommittedRows(runs)
    && now.effects == start.effects + Effects(runs)
  }

  /** Visiting one more file changes the state by that file's effects. */
  lemma SnapshotStep(start: Snapshot, prev: Snapshot, now: Snapshot, before: seq<FileRun>, run: FileRun)
    requires SnapshotReflects(prev, start, before)
    requires now.intake == prev.intake - (if run.complete then {run.name} else {})
    requires now.processed == prev.processed + (if run.complete then {run.name} else {})
    requires now.table == prev.table + (if run.complete then run.rows else [])
    requires now.effects == prev.effects + RunEffects(run)
    ensures SnapshotReflects(now, start, before + [run])
  {
    PassSummariesStep(before, run);
  }

  /** One step of the pass, as the loop takes it. */
  lemma PassStep(listing: seq<string>, i: nat, read: string -> Option<Pages>, embed: string -> Option<Embedding>)
    requires i < |listing| && !Halted(Visited(listing[..i], read, embed))
    ensures Visited(listing[..i + 1], read, embed)
         == Visited(listing[..i], read, embed) + (if IsPdf(listing[i]) then [RunFile(listing[i], read, embed)] else [])
  {
    assert listing[..i + 1][..i] == listing[..i];
  }

  /** The entry the loop is at has not been moved yet: listings have no repeats. */
  lemma NextNotMoved(listing: seq<string>, i: nat, read: string -> Option<Pages>, embed: string -> Option<Embedding>)
    requires i < |listing| && Distinct(listing)
    ensures listing[i] !in Moved(Visited(listing[..i], read, embed))
  {
    MovedArePdfEntries(listing[..i], read, embed);
  }
}

/**
 * The quote file importer: the file's text is cut at every "----\n", each
 * piece is stripped, empty pieces are ignored, a last line that does not end
 * like a sentence is taken as the author, and texts already in the table are
 * skipped. Reading the file is abstracted to its existence and its content.
 */
module ImportQuotes {
  import opened Wrappers
  import opened Text
  import opened Models

  const Separator := "----\n"

  /** A parsed piece of the file. */
  datatype Chunk = Chunk(text: string, author: string)

  predicate EndsSentence(c: char) {
    c == '.' || c == '!' || c == '?'
  }

  /** One piece of the file, stripped; `None` when nothing is left. */
  function ParseChunk(raw: string): Option<Chunk>
  {
    var quote := Strip(raw);
    if quote == "" then None else Some(ChunkOfLines(quote, Split(quote, "\n")))
  }

  /** The text and the author of a non-empty stripped piece cut into lines. */
  function ChunkOfLines(quote: string, lines: seq<string>): Chunk
    requires |lines| >= 1
  {
    if |lines| > 1 then
      var last := Strip(lines[|lines| - 1]);
      if last != "" && !EndsSentence(last[|last| - 1]) then
        Chunk(Strip(Join(lines[..|lines| - 1], "\n")), last)
      else Chunk(quote, "")
    else Chunk(quote, "")
  }

  /** A piece is dropped exactly when it strips to nothing; an author is
      taken only from a piece of several lines and never ends like a
      sentence; without an author the text is the whole stripped piece. */
  lemma {:induction false} ParseChunkShape(raw: string)
    ensures ParseChunk(raw).None? <==> Strip(raw) == ""
    ensures var r := ParseChunk(raw);
            r.Some? && r.value.author != "" ==>
              |Split(Strip(raw), "\n")| > 1 && !EndsSentence(r.value.author[|r.value.author| - 1])
    ensures var r := ParseChunk(raw);
            r.Some? && r.value.author == "" ==> r.value.text == Strip(raw)
  {
    var quote := Strip(raw);
    if quote != "" {
      ChunkOfLinesShape(quote, Split(quote, "\n"));
    }
  }

  lemma {:induction false} ChunkOfLinesShape(quote: string, lines: seq<string>)
    requires |lines| >= 1
    ensures var c := ChunkOfLines(quote, lines);
            (c.author != "" ==> |lines| > 1 && !EndsSentence(c.author[|c.author| - 1])) &&
            (c.author == "" ==> c.text == quote)
  {
  }

  predicate Trimmed(s: string) {
    s != [] && !IsWhitespace(s[0]) && !IsWhitespace(s[|s| - 1])
  }

  lemma {:induction false} StripTrimmed(s: string)
    requires Trimmed(s)
    ensures Strip(s) == s
  {
    assert TrimLeft(s) == s;
    assert TrimRight(s) == s;
  }

  /** A single non-empty line is a quote without author. */
  lemma {:induction false} SingleLineHasNoAuthor(raw: string)
    requires Strip(raw) != "" && '\n' !in Strip(raw)
    ensures ParseChunk(raw) == Some(Chunk(Strip(raw), ""))
  {
    IndexOfNoFirstChar(Strip(raw), "\n");
  }

  /** Two lines joined by a newline split back into those two lines. */
  lemma {:induction false} SplitTwoLines(first: string, second: string)
    requires '\n' !in first && '\n' !in second
    ensures Split(first + "\n" + second, "\n") == [first, second]
  {
    var s := first + "\n" + second;
    assert OccursAt(s, |first|, "\n") by {
      assert s[|first|..|first| + 1] == "\n";
    }
    forall j | 0 <= j < |first| ensures s[j] != '\n' {
      assert s[j] == first[j];
    }
    IndexOfAfterFreePrefix(s, "\n", |first|);
    assert s[|first| + 1..] == second;
    IndexOfNoFirstChar(second, "\n");
    assert s[..|first|] == first;
  }

  lemma {:induction false} TrimmedLines(first: string, second: string)
    requires Trimmed(first) && Trimmed(second)
    ensures Trimmed(first + "\n" + second)
  {
    var s := first + "\n" + second;
    assert s[0] == first[0];
    assert s[|s| - 1] == second[|second| - 1];
  }

  /** A one-line text followed by an author line reads back as that text and
      that author. */
  lemma {:induction false} TextThenAuthor(text: string, author: string)
    requires Trimmed(text) && Trimmed(author)
    requires '\n' !in text && '\n' !in author
    requires !EndsSentence(author[|author| - 1])
    ensures ParseChunk(text + "\n" + author) == Some(Chunk(text, author))
  {
    var s := text + "\n" + author;
    TrimmedLines(text, author);
    StripTrimmed(s);
    SplitTwoLines(text, author);
    TwoLinesChunk(s, text, author);
  }

  /** Two trimmed lines, the second not ending a sentence, are a text and its author. */
  lemma {:induction false} TwoLinesChunk(quote: string, text: string, author: string)
    requires Trimmed(text) && Trimmed(author)
    requires !EndsSentence(author[|author| - 1])
    ensures ChunkOfLines(quote, [text, author]) == Chunk(text, author)
  {
    var lines := [text, author];
    StripTrimmed(author);
    assert Strip(lines[|lines| - 1]) == author;
    assert lines[..|lines| - 1] == [text];
    assert Join([text], "\n") == text;
    StripTrimmed(text);
  }

  predicate HasText(quotes: seq<QuoteRecord>, text: string) {
    exists k :: 0 <= k < |quotes| && quotes[k].text == text
  }

  /** The table and counters after the pieces so far: (quotes, imported, skipped). */
  datatype Progress = Progress(quotes: seq<QuoteRecord>, imported: nat, skipped: nat)

  function ImportStep(p: Progress, chunk: Option<Chunk>, category: string): Progress {
    match chunk
    case None => p
    case Some(c) =>
      if HasText(p.quotes, c.text) then p.(skipped := p.skipped + 1)
      else Progress(p.quotes + [QuoteRecord(c.text, c.author, category, true)], p.imported + 1, p.skipped)
  }

  /** Every piece of the file, parsed. */
  function ParseAll(pieces: seq<string>): (chunks: seq<Option<Chunk>>)
    ensures |chunks| == |pieces|
    ensures forall k :: 0 <= k < |pieces| ==> chunks[k] == ParseChunk(pieces[k])
  {
    seq(|pieces|, k requires 0 <= k < |pieces| => ParseChunk(pieces[k]))
  }

  /** The parsed pieces processed in file order. */
  function ImportAll(quotes: seq<QuoteRecord>, chunks: seq<Option<Chunk>>, category: string): Progress {
    if chunks == [] then Progress(quotes, 0, 0)
    else ImportStep(ImportAll(quotes, chunks[..|chunks| - 1], category), chunks[|chunks| - 1], category)
  }

  lemma {:induction false} ImportAllSnoc(quotes: seq<QuoteRecord>, chunks: seq<Option<Chunk>>, i: nat, category: string)
    requires i < |chunks|
    ensures ImportAll(quotes, chunks[..i + 1], category) ==
            ImportStep(ImportAll(quotes, chunks[..i], category), chunks[i], category)
  {
    assert chunks[..i + 1][..i] == chunks[..i];
  }

  /** The number of pieces with something left after stripping. */
  function NonEmpty(pieces: seq<string>): nat {
    if pieces == [] then 0
    else NonEmpty(pieces[..|pieces| - 1]) + (if Strip(pieces[|pieces| - 1]) == "" then 0 else 1)
  }

  /** The number of pieces that parsed to a quote. */
  function Parsed(chunks: seq<Option<Chunk>>): nat {
    if chunks == [] then 0
    else Parsed(chunks[..|chunks| - 1]) + (if chunks[|chunks| - 1].Some? then 1 else 0)
  }

  /** Exactly the pieces with something left after stripping parse to a quote. */
  lemma {:induction false} ParsedNonEmpty(pieces: seq<string>)
    ensures Parsed(ParseAll(pieces)) == NonEmpty(pieces)
  {
    if pieces != [] {
      var init := pieces[..|pieces| - 1];
      ParsedNonEmpty(init);
      assert ParseAll(pieces)[..|pieces| - 1] == ParseAll(init);
      ParseChunkShape(pieces[|pieces| - 1]);
    }
  }

  predicate DistinctTexts(quotes: seq<QuoteRecord>) {
    forall i, j :: 0 <= i < j < |quotes| ==> quotes[i].text != quotes[j].text
  }

  /** Every parsed piece is counted once, as imported or as skipped; the
      table grows by the imported ones and keeps what it had; new rows are
      active and carry the category; and no text ends up in the table twice
      when none was there twice before. */
  lemma {:induction false} ImportInvariants(quotes: seq<QuoteRecord>, chunks: seq<Option<Chunk>>, category: string)
    ensures var p := ImportAll(quotes, chunks, category);
            && p.imported + p.skipped == Parsed(chunks)
            && |p.quotes| == |quotes| + p.imported
            && p.quotes[..|quotes|] == quotes
            && (forall k :: |quotes| <= k < |p.quotes| ==> p.quotes[k].active && p.quotes[k].category == category)
            && (DistinctTexts(quotes) ==> DistinctTexts(p.quotes))
  {
    if chunks != [] {
      var init := chunks[..|chunks| - 1];
      ImportInvariants(quotes, init, category);
      var p := ImportAll(quotes, init, category);
      var p' := ImportAll(quotes, chunks, category);
      assert p' == ImportStep(p, chunks[|chunks| - 1], category);
      if p'.quotes != p.quotes {
        assert p'.quotes[..|p.quotes|] == p.quotes;
        assert p'.quotes[..|quotes|] == p.quotes[..|quotes|];
      }
    }
  }

  /** On the pieces of a file: every non-empty piece is imported or skipped,
      and the file adds no duplicate text to a table that had none. */
  lemma {:induction false} ImportFile(quotes: seq<QuoteRecord>, pieces: seq<string>, category: string)
    ensures var p := ImportAll(quotes, ParseAll(pieces), category);
            && p.imported + p.skipped == NonEmpty(pieces)
            && |p.quotes| == |quotes| + p.imported
            && p.quotes[..|quotes|] == quotes
            && (DistinctTexts(quotes) ==> DistinctTexts(p.quotes))
  {
    ImportInvariants(quotes, ParseAll(pieces), category);
    ParsedNonEmpty(pieces);
  }

  /** A text that occurs in two pieces is imported at most once: the later
      piece is skipped. */
  lemma {:induction false} RepeatIsSkipped(p: Progress, raw: string, category: string)
    requires ParseChunk(raw).Some? && HasText(p.quotes, ParseChunk(raw).value.text)
    ensures ImportStep(p, ParseChunk(raw), category) == p.(skipped := p.skipped + 1)
  {
  }

  /** The author heuristic of the import loop, on a piece `raw` whose stripped
      text `quoteText` is not empty. */
  method ExtractAuthor(ghost raw: string, quoteText: string) returns (text: string, author: string)
    requires quoteText == Strip(raw) && quoteText != ""
    ensures ParseChunk(raw) == Some(Chunk(text, author))
  {
    text := quoteText;
    var lines := Split(quoteText, "\n");
    author := "";
    if |lines| > 1 {
      var lastLine := Strip(lines[|lines| - 1]);
      if lastLine != "" && !EndsSentence(lastLine[|lastLine| - 1]) {
        author := lastLine;
        text := Strip(Join(lines[..|lines| - 1], "\n"));
      }
    }
    assert Chunk(text, author) == ChunkOfLines(quoteText, lines);
  }

  /** `handle()`: `fileFound` and `content` stand for the file check and the
      file's text (or the reading error). Returns the two counters. */
  method Import(db: Database, path: string, fileFound: bool, content: Result<string, string>,
                category: string, clear: bool)
    returns (r: Result<(nat, nat), string>)
    modifies db`quotes
    ensures !fileFound ==> r == Err("File '" + path + "' does not exist") && db.quotes == old(db.quotes)
    ensures fileFound && content.Err? ==>
              r == Err("Error reading file: " + content.error) &&
              db.quotes == (if clear then [] else old(db.quotes))
    ensures fileFound && content.Ok? ==>
              var p := ImportAll(if clear then [] else old(db.quotes), ParseAll(Split(content.value, Separator)), category);
              r == Ok((p.imported, p.skipped)) && db.quotes == p.quotes
  {
    if !fileFound {
      return Err("File '" + path + "' does not exist");
    }
    if clear {
      db.quotes := [];
    }
    if content.Err? {
      return Err("Error reading file: " + content.error);
    }
    var pieces := Split(content.value, Separator);
    var imported, skipped := ImportPieces(db, pieces, category);
    return Ok((imported, skipped));
  }

  /** One piece of the import loop: skipped when it strips to nothing,
      counted as skipped when its text is already in the table, and inserted
      otherwise. */
  method ImportPiece(db: Database, raw: string, category: string, imported: nat, skipped: nat)
    returns (imported': nat, skipped': nat)
    modifies db`quotes
    ensures Progress(db.quotes, imported', skipped') ==
            ImportStep(Progress(old(db.quotes), imported, skipped), ParseChunk(raw), category)
  {
    imported', skipped' := imported, skipped;
    var quoteText := Strip(raw);
    if quoteText == "" {
      ParseChunkShape(raw);
    } else {
      var text, author := ExtractAuthor(raw, quoteText);
      if HasText(db.quotes, text) {
        skipped' := skipped + 1;
      } else {
        db.quotes := db.quotes + [QuoteRecord(text, author, category, true)];
        imported' := imported + 1;
      }
    }
  }

  /** The import loop over the pieces of the file, in file order. */
  method ImportPieces(db: Database, pieces: seq<string>, category: string)
    returns (imported: nat, skipped: nat)
    modifies db`quotes
    ensures ImportAll(old(db.quotes), ParseAll(pieces), category) == Progress(db.quotes, imported, skipped)
  {
    ghost var start := db.quotes;
    ghost var chunks := ParseAll(pieces);
    imported, skipped := 0, 0;
    var i := 0;
    assert chunks[..0] == [];
    while i < |pieces|
      invariant 0 <= i <= |pieces|
      invariant ImportAll(start, chunks[..i], category) == Progress(db.quotes, imported, skipped)
    {
      ImportAllSnoc(start, chunks, i, category);
      imported, skipped := ImportPiece(db, pieces[i], category, imported, skipped);
      i := i + 1;
    }
    assert chunks[..i] == chunks;
  }
}

/**
 * tools/extract_chapter.js: picks one chapter out of a manuscript, cuts it
 * into paragraphs, packs consecutive paragraphs into chunks of about 650
 * characters and writes one numbered scaffold record per chunk.
 *
 * The manuscript arrives already split at its chapter headings, and the
 * chapter text already split at its blank lines: the two regular
 * expressions that do the splitting are not part of this model.
 */
module ExtractChapter {
  import opened JsValues
  import opened Text
  import opened CommandLine

  // ---------------------------------------------------------------------------
  // Arguments

  /**
   * The script's `arg(k, def)`: `def` when the flag is absent, otherwise the
   * word after it, undefined (None) when the flag is the last word.
   */
  function ArgOr(argv: seq<string>, flag: string, def: Option<string>): (r: Option<string>)
    ensures flag !in argv ==> r == def
    ensures flag in argv ==> r == Arg(argv, flag)
  {
    var i := IndexOf(argv, flag);
    if i == -1 then def else if i + 1 < |argv| then Some(argv[i + 1]) else None
  }

  /**
   * `parseInt(arg('--chapter'), 10)`, kept only when truthy: None when it
   * is NaN or 0, which the script rejects with exit code 1.
   */
  function ChapterArg(argv: seq<string>): (n: Option<int>)
    ensures n.Some? ==> n.value != 0
    ensures n.Some? <==> ParseInt(Arg(argv, "--chapter")).Some? && ParseInt(Arg(argv, "--chapter")).value != 0
  {
    var v := ParseInt(ArgOr(argv, "--chapter", None));
    if v.Some? && v.value != 0 then v else None
  }

  /** `--chapter <n>` with a nonzero integer numeral is accepted as n. */
  lemma ChapterArgAccepts(before: seq<string>, n: int, after: seq<string>)
    requires n != 0 && "--chapter" !in before
    ensures ChapterArg(before + ["--chapter", Decimal(n)] + after) == Some(n)
  {
    var argv := before + ["--chapter", Decimal(n)] + after;
    assert argv[|before|] == "--chapter";
    assert forall j :: 0 <= j < |before| ==> argv[j] == before[j];
    assert IndexOf(argv, "--chapter") == |before|;
    ParseIntDecimal(n, []);
    assert Decimal(n) + [] == Decimal(n);
  }

  // ---------------------------------------------------------------------------
  // Chapter selection

  /**
   * The number in a part's heading, `/^Chapter\s+(\d+)/`: the word
   * `Chapter` at the very start, at least one white-space character, then
   * the digits. None when the part does not start that way.
   */
  function HeadingNumber(part: string): (n: Option<nat>)
    ensures n.Some? ==> StartsWith(part, "Chapter")
  {
    if !StartsWith(part, "Chapter") then None
    else
      var rest := part[7..];
      var body := TrimStart(rest);
      if |body| == |rest| then None
      else
        var digits := DigitPrefix(body);
        if digits == [] then None else Some(DecimalValue(digits))
  }

  /** A part made of `Chapter`, one space and a body that starts with no white space is numbered by the body's leading digits. */
  lemma HeadingAfterSpace(body: string)
    requires body != [] && !IsSpace(body[0])
    ensures HeadingNumber("Chapter " + body) == (var d := DigitPrefix(body); if d == [] then None else Some(DecimalValue(d)))
  {
    ChapterWord(body);
    OneSpaceThenBody(body);
  }

  /** `Chapter ` followed by a body starts with the word and then one space. */
  lemma ChapterWord(body: string)
    ensures StartsWith("Chapter " + body, "Chapter") && ("Chapter " + body)[7..] == [' '] + body
  {
    var part := "Chapter " + body;
    assert part[..7] == "Chapter";
  }

  /** Trimming the start of one space and a body that does not start with white space leaves the body. */
  lemma OneSpaceThenBody(body: string)
    requires body != [] && !IsSpace(body[0])
    ensures TrimStart([' '] + body) == body
  {
    assert ([' '] + body)[1..] == body;
    TrimStartKeeps(body);
  }

  /** `Chapter <n>` followed by a line break heads chapter n. */
  lemma HeadingOfChapter(n: nat, text: string)
    ensures HeadingNumber("Chapter " + Digits(n) + "\n" + text) == Some(n)
  {
    var body := Digits(n) + ("\n" + text);
    assert "Chapter " + Digits(n) + "\n" + text == "Chapter " + body;
    assert body[0] == Digits(n)[0];
    HeadingAfterSpace(body);
    DigitPrefixOf(Digits(n), "\n" + text);
    DigitsValue(n);
  }

  /** The position of the first part whose heading number is n. */
  predicate FirstHeaded(parts: seq<string>, n: int, i: nat)
  {
    i < |parts| && HeadingNumber(parts[i]) == Some(n)
    && forall j :: 0 <= j < i ==> HeadingNumber(parts[j]) != Some(n)
  }

  /**
   * The selection loop: the first part whose heading number is the
   * requested chapter, or None, which the script reports as "Chapter not
   * found" with exit code 2.
   */
  method SelectChapter(parts: seq<string>, n: int) returns (found: Option<nat>)
    ensures found.Some? ==> FirstHeaded(parts, n, found.value)
    ensures found.None? <==> forall j :: 0 <= j < |parts| ==> HeadingNumber(parts[j]) != Some(n)
  {
    found := None;
    for i := 0 to |parts|
      invariant forall j :: 0 <= j < i ==> HeadingNumber(parts[j]) != Some(n)
    {
      var m := HeadingNumber(parts[i]);
      if m.Some? && m.value == n {
        found := Some(i);
        return;
      }
    }
  }

  /** At most one position is the first for a chapter. */
  lemma FirstHeadedUnique(parts: seq<string>, n: int, i: nat, k: nat)
    requires FirstHeaded(parts, n, i) && FirstHeaded(parts, n, k)
    ensures i == k
  {
    assert HeadingNumber(parts[i]) == Some(n) && HeadingNumber(parts[k]) == Some(n);
  }

  // ---------------------------------------------------------------------------
  // Paragraphs

  /** `.map(s => s.trim())`. */
  function TrimAll(pieces: seq<string>): (r: seq<string>)
    ensures |r| == |pieces| && forall j :: 0 <= j < |pieces| ==> r[j] == Trim(pieces[j])
  {
    seq(|pieces|, j requires 0 <= j < |pieces| => Trim(pieces[j]))
  }

  /** `.filter(Boolean)` on strings: the non-empty ones, in order. */
  function NonEmpty(xs: seq<string>): (r: seq<string>)
    ensures |r| <= |xs|
    ensures forall k :: 0 <= k < |r| ==> r[k] != [] && r[k] in xs
    ensures forall x :: x in xs && x != [] ==> x in r
  {
    if xs == [] then []
    else
      assert forall x :: x in xs ==> x == xs[0] || x in xs[1..];
      (if xs[0] == [] then [] else [xs[0]]) + NonEmpty(xs[1..])
  }

  /** Filtering keeps a list whose strings are all non-empty as it is. */
  lemma {:induction false} NonEmptyKeepsAll(xs: seq<string>)
    requires forall k :: 0 <= k < |xs| ==> xs[k] != []
    ensures NonEmpty(xs) == xs
  {
    if xs != [] {
      NonEmptyKeepsAll(xs[1..]);
    }
  }

  /**
   * `pieces.map(s => s.trim()).filter(Boolean)`: no text is lost, since
   * every piece that is not blank appears trimmed among the paragraphs, and
   * none is invented, since every paragraph is a piece, trimmed, and so is
   * non-empty and its own trim.
   */
  function Paragraphs(pieces: seq<string>): (paras: seq<string>)
    ensures |paras| <= |pieces|
    ensures forall j :: 0 <= j < |pieces| && Trim(pieces[j]) != [] ==> Trim(pieces[j]) in paras
    ensures forall k :: 0 <= k < |paras| ==> exists j :: 0 <= j < |pieces| && paras[k] == Trim(pieces[j])
    ensures forall k :: 0 <= k < |paras| ==> paras[k] != [] && Trim(paras[k]) == paras[k]
  {
    TrimmedKept(pieces);
    TrimmedOnly(pieces);
    TrimmedClean(pieces);
    NonEmpty(TrimAll(pieces))
  }

  /** Every piece that is not blank survives the filter, trimmed. */
  lemma TrimmedKept(pieces: seq<string>)
    ensures forall j :: 0 <= j < |pieces| && Trim(pieces[j]) != [] ==> Trim(pieces[j]) in NonEmpty(TrimAll(pieces))
  {
    var trimmed := TrimAll(pieces);
    forall j | 0 <= j < |pieces| && Trim(pieces[j]) != []
      ensures Trim(pieces[j]) in NonEmpty(trimmed)
    {
      assert trimmed[j] in trimmed;
    }
  }

  /** Everything that survives the filter is a piece, trimmed. */
  lemma TrimmedOnly(pieces: seq<string>)
    ensures var r := NonEmpty(TrimAll(pieces));
      forall k :: 0 <= k < |r| ==> exists j :: 0 <= j < |pieces| && r[k] == Trim(pieces[j])
  {
    var trimmed := TrimAll(pieces);
    var r := NonEmpty(trimmed);
    forall k | 0 <= k < |r|
      ensures exists j :: 0 <= j < |pieces| && r[k] == Trim(pieces[j])
    {
      assert r[k] in trimmed;
      var j :| 0 <= j < |trimmed| && trimmed[j] == r[k];
      assert r[k] == Trim(pieces[j]);
    }
  }

  /** What survives the filter is non-empty and trimmed. */
  lemma TrimmedClean(pieces: seq<string>)
    ensures var r := NonEmpty(TrimAll(pieces));
      forall k :: 0 <= k < |r| ==> r[k] != [] && Trim(r[k]) == r[k]
  {
    var trimmed := TrimAll(pieces);
    forall x | x in trimmed
      ensures Trim(x) == x
    {
      var j :| 0 <= j < |trimmed| && trimmed[j] == x;
      TrimFixes(Trim(pieces[j]));
    }
  }

  /** Pieces that are already trimmed and non-empty are the paragraphs, one for one. */
  lemma ParagraphsOfClean(pieces: seq<string>)
    requires forall k :: 0 <= k < |pieces| ==> pieces[k] != [] && Trim(pieces[k]) == pieces[k]
    ensures Paragraphs(pieces) == pieces
  {
    assert TrimAll(pieces) == pieces;
    NonEmptyKeepsAll(pieces);
  }

  /** Segmenting the paragraphs again changes nothing. */
  lemma ParagraphsIdempotent(pieces: seq<string>)
    ensures Paragraphs(Paragraphs(pieces)) == Paragraphs(pieces)
  {
    ParagraphsOfClean(Paragraphs(pieces));
  }

  // ---------------------------------------------------------------------------
  // Chunking

  /** The greedy bound: a chunk may exceed it only by holding one paragraph. */
  const ChunkLimit: nat := 650

  /** The summed length of some paragraphs, `charCount`. */
  function Sum(g: seq<string>): nat
  {
    if g == [] then 0 else Sum(g[..|g| - 1]) + |g[|g| - 1]|
  }

  /** The paragraphs of the chunks, one chunk after the other. */
  function Flatten(groups: seq<seq<string>>): seq<string>
  {
    if groups == [] then [] else Flatten(groups[..|groups| - 1]) + groups[|groups| - 1]
  }

  /**
   * What the packing loop produces from `paras`: the chunks hold the
   * paragraphs in order, none lost or repeated; no chunk is empty; a chunk
   * exceeds the limit only when it holds a single paragraph; and a chunk
   * was closed only because its next paragraph would have taken it over
   * the limit.
   */
  predicate Packed(paras: seq<string>, groups: seq<seq<string>>)
  {
    Flatten(groups) == paras && WellChunked(groups)
  }

  /** The conditions on the chunks themselves, whatever paragraphs they hold. */
  predicate WellChunked(groups: seq<seq<string>>)
  {
    && (forall k :: 0 <= k < |groups| ==> groups[k] != [])
    && (forall k :: 0 <= k < |groups| ==> Sum(groups[k]) > ChunkLimit ==> |groups[k]| == 1)
    && (forall k :: 0 <= k < |groups| - 1 ==> Sum(groups[k]) + |groups[k + 1][0]| > ChunkLimit)
  }

  /** `buf.join('\n\n')`. */
  function Join(g: seq<string>): (s: string)
    ensures |s| == Sum(g) + (if g == [] then 0 else 2 * (|g| - 1))
  {
    if g == [] then []
    else if |g| == 1 then g[0]
    else
      assert g[..|g| - 1][..|g| - 2] == g[..|g| - 2];
      Join(g[..|g| - 1]) + "\n\n" + g[|g| - 1]
  }

  /** Joining one paragraph gives the paragraph. */
  lemma JoinSingle(p: string)
    ensures Join([p]) == p
  {
  }

  /** Flattening distributes over appending a chunk. */
  lemma FlattenSnoc(groups: seq<seq<string>>, g: seq<string>)
    ensures Flatten(groups + [g]) == Flatten(groups) + g
  {
    assert (groups + [g])[..|groups|] == groups;
  }

  /** The length of a chunk grows by the length of the paragraph added to it. */
  lemma SumSnoc(g: seq<string>, p: string)
    ensures Sum(g + [p]) == Sum(g) + |p|
  {
    assert (g + [p])[..|g|] == g;
  }

  /** The chunks' texts, `chunks`: each chunk's paragraphs joined with blank lines. */
  function ChunkTexts(groups: seq<seq<string>>): (texts: seq<string>)
    ensures |texts| == |groups|
  {
    seq(|groups|, k requires 0 <= k < |groups| => Join(groups[k]))
  }

  /** The texts of the chunks grow by the text of the chunk appended. */
  lemma ChunkTextsSnoc(groups: seq<seq<string>>, g: seq<string>)
    ensures ChunkTexts(groups + [g]) == ChunkTexts(groups) + [Join(g)]
  {
  }

  /** What the packing loop holds after some paragraphs: the closed chunks and the open buffer. */
  datatype Packing = Packing(groups: seq<seq<string>>, buf: seq<string>)

  /** One turn of the loop: close the buffer when p would take it over the limit, then add p. */
  function PackStep(st: Packing, p: string): Packing
  {
    if Sum(st.buf) + |p| > ChunkLimit && |st.buf| > 0 then Packing(st.groups + [st.buf], [p])
    else Packing(st.groups, st.buf + [p])
  }

  /** The state of the loop after the paragraphs `done`. */
  function PackPrefix(done: seq<string>): Packing
  {
    if done == [] then Packing([], []) else PackStep(PackPrefix(done[..|done| - 1]), done[|done| - 1])
  }

  /** The chunks: those closed in the loop and the last buffer when it is not empty. */
  function Pack(paras: seq<string>): seq<seq<string>>
  {
    var st := PackPrefix(paras);
    if st.buf == [] then st.groups else st.groups + [st.buf]
  }

  /**
   * The invariant of the packing loop: the closed chunks are well formed,
   * the buffer exceeds the limit only with a single paragraph, and the last
   * chunk was closed because the buffer's first paragraph did not fit.
   */
  predicate PackingState(st: Packing)
  {
    && WellChunked(st.groups)
    && (Sum(st.buf) > ChunkLimit ==> |st.buf| == 1)
    && (st.groups != [] ==> st.buf != [] && Sum(st.groups[|st.groups| - 1]) + |st.buf[0]| > ChunkLimit)
  }

  /** A well-formed list of chunks with one more chunk after it that the previous one could not take. */
  lemma WellChunkedSnoc(groups: seq<seq<string>>, g: seq<string>)
    requires WellChunked(groups) && g != [] && (Sum(g) > ChunkLimit ==> |g| == 1)
    requires groups != [] ==> Sum(groups[|groups| - 1]) + |g[0]| > ChunkLimit
    ensures WellChunked(groups + [g])
  {
    var gs := groups + [g];
    forall k | 0 <= k < |gs| - 1
      ensures Sum(gs[k]) + |gs[k + 1][0]| > ChunkLimit
    {
      if k < |groups| - 1 {
        assert gs[k] == groups[k] && gs[k + 1] == groups[k + 1];
      }
    }
  }

  /** Closing the buffer as a chunk and opening a new one with p keeps the invariant. */
  lemma PackCloseState(st: Packing, p: string)
    requires PackingState(st) && Sum(st.buf) + |p| > ChunkLimit && |st.buf| > 0
    ensures PackingState(Packing(st.groups + [st.buf], [p]))
  {
    WellChunkedSnoc(st.groups, st.buf);
    SumSnoc([], p);
  }

  /** Adding p to a buffer that stays within the limit, or was empty, keeps the invariant. */
  lemma PackAppendState(st: Packing, p: string)
    requires PackingState(st) && (Sum(st.buf) + |p| <= ChunkLimit || st.buf == [])
    ensures PackingState(Packing(st.groups, st.buf + [p]))
  {
    SumSnoc(st.buf, p);
    if st.buf != [] {
      assert (st.buf + [p])[0] == st.buf[0];
    }
  }

  /** One turn of the loop keeps the invariant. */
  lemma PackTurnState(st: Packing, p: string)
    requires PackingState(st)
    ensures PackingState(PackStep(st, p))
  {
    if Sum(st.buf) + |p| > ChunkLimit && |st.buf| > 0 {
      PackCloseState(st, p);
    } else {
      PackAppendState(st, p);
    }
  }

  /** Every state the loop passes through satisfies the invariant. */
  lemma {:induction false} PackPrefixState(done: seq<string>)
    ensures PackingState(PackPrefix(done))
    decreases |done|
  {
    if done != [] {
      PackPrefixState(done[..|done| - 1]);
      PackTurnState(PackPrefix(done[..|done| - 1]), done[|done| - 1]);
    }
  }

  /** The closed chunks and the buffer hold the paragraphs handled so far, in order. */
  lemma {:induction false} PackPrefixContent(done: seq<string>)
    ensures Flatten(PackPrefix(done).groups) + PackPrefix(done).buf == done
    decreases |done|
  {
    if done != [] {
      var before, p := done[..|done| - 1], done[|done| - 1];
      PackPrefixContent(before);
      PackStepContent(PackPrefix(before), p, before, done);
    }
  }

  /** One turn of the loop moves p, the last paragraph of `done`, and nothing else, into the state's paragraphs. */
  lemma PackStepContent(st: Packing, p: string, before: seq<string>, done: seq<string>)
    requires Flatten(st.groups) + st.buf == before
    requires done != [] && before == done[..|done| - 1] && p == done[|done| - 1]
    ensures Flatten(PackStep(st, p).groups) + PackStep(st, p).buf == done
  {
    assert done == before + [p];
    if Sum(st.buf) + |p| > ChunkLimit && |st.buf| > 0 {
      FlattenSnoc(st.groups, st.buf);
    }
  }

  /** After the last paragraph, the chunks closed so far and the non-empty buffer are the packing. */
  lemma FinishPacking(paras: seq<string>, st: Packing)
    requires PackingState(st) && Flatten(st.groups) + st.buf == paras
    ensures Packed(paras, if st.buf == [] then st.groups else st.groups + [st.buf])
  {
    if st.buf == [] {
      assert Flatten(st.groups) + [] == Flatten(st.groups);
    } else {
      FlattenSnoc(st.groups, st.buf);
      WellChunkedSnoc(st.groups, st.buf);
    }
  }

  /** The chunks the loop produces are a packing of the paragraphs. */
  lemma PackIsPacked(paras: seq<string>)
    ensures Packed(paras, Pack(paras))
  {
    PackPrefixState(paras);
    PackPrefixContent(paras);
    FinishPacking(paras, PackPrefix(paras));
  }

  /**
   * The packing loop: paragraphs are added to the buffer until the next one
   * would take it over the limit, and then the buffer becomes a chunk. The
   * chunks' texts are the buffers joined with blank lines.
   */
  method PackChunks(paras: seq<string>) returns (groups: seq<seq<string>>, chunks: seq<string>)
    ensures groups == Pack(paras) && Packed(paras, groups)
    ensures chunks == ChunkTexts(groups)
  {
    groups, chunks := [], [];
    var buf: seq<string> := [];
    var charCount := 0;
    for i := 0 to |paras|
      invariant Packing(groups, buf) == PackPrefix(paras[..i])
      invariant charCount == Sum(buf)
      invariant chunks == ChunkTexts(groups)
    {
      var para := paras[i];
      assert paras[..i + 1][..i] == paras[..i];
      if charCount + |para| > ChunkLimit && |buf| > 0 {
        ChunkTextsSnoc(groups, buf);
        groups, chunks := groups + [buf], chunks + [Join(buf)];
        buf, charCount := [], 0;
      }
      SumSnoc(buf, para);
      buf, charCount := buf + [para], charCount + |para|;
    }
    assert paras[..|paras|] == paras;
    if |buf| > 0 {
      ChunkTextsSnoc(groups, buf);
      groups, chunks := groups + [buf], chunks + [Join(buf)];
    }
    PackIsPacked(paras);
  }

  /**
   * The packing is determined by the paragraphs: two packings that both
   * satisfy `Packed` are the same, so the properties above say all that the
   * loop does.
   */
  lemma {:induction false} PackedUnique(paras: seq<string>, g1: seq<seq<string>>, g2: seq<seq<string>>)
    requires Packed(paras, g1) && Packed(paras, g2)
    ensures g1 == g2
    decreases |paras|
  {
    if g1 != [] && g2 != [] {
      FlattenFront(g1);
      FlattenFront(g2);
      var a, b := g1[0], g2[0];
      // Both first chunks are prefixes of paras, and neither is shorter.
      FirstChunkNotShorter(paras, g1, g2);
      FirstChunkNotShorter(paras, g2, g1);
      assert a == paras[..|a|] && b == paras[..|b|];
      assert a == b;
      PackedTail(paras, g1);
      PackedTail(paras, g2);
      PackedUnique(paras[|a|..], g1[1..], g2[1..]);
      assert g1 == [a] + g1[1..] && g2 == [b] + g2[1..];
    } else if g1 != [] {
      FlattenFront(g1);
    } else if g2 != [] {
      FlattenFront(g2);
    }
  }

  /** Flattening from the front: the first chunk, then the rest. */
  lemma {:induction false} FlattenFront(groups: seq<seq<string>>)
    requires groups != []
    ensures Flatten(groups) == groups[0] + Flatten(groups[1..])
    decreases |groups|
  {
    if |groups| > 1 {
      var n := |groups| - 1;
      FlattenFront(groups[..n]);
      assert groups[..n][1..] == groups[1..][..n - 1];
      assert groups[..n][0] == groups[0];
    } else {
      assert groups[1..] == [];
    }
  }

  /** Dropping the first chunk of a packing leaves a packing of the remaining paragraphs. */
  lemma PackedTail(paras: seq<string>, groups: seq<seq<string>>)
    requires Packed(paras, groups) && groups != []
    ensures |groups[0]| <= |paras| && paras[..|groups[0]|] == groups[0]
    ensures Packed(paras[|groups[0]|..], groups[1..])
  {
    FlattenFront(groups);
    var rest := groups[1..];
    assert forall k :: 0 <= k < |rest| ==> rest[k] == groups[k + 1];
  }

  /** The summed length of a prefix of a chunk is at most the chunk's. */
  lemma {:induction false} SumPrefix(g: seq<string>, m: nat)
    requires m <= |g|
    ensures Sum(g[..m]) <= Sum(g)
    decreases |g|
  {
    if m < |g| {
      assert g[..|g| - 1][..m] == g[..m];
      SumPrefix(g[..|g| - 1], m);
    } else {
      assert g[..m] == g;
    }
  }

  /**
   * Of two packings of the same paragraphs, the first chunk of one is not
   * shorter than the other's: the shorter one would have been closed
   * although its next paragraph fitted.
   */
  lemma FirstChunkNotShorter(paras: seq<string>, g1: seq<seq<string>>, g2: seq<seq<string>>)
    requires Packed(paras, g1) && Packed(paras, g2) && g1 != [] && g2 != []
    ensures |g1[0]| >= |g2[0]|
  {
    PackedTail(paras, g1);
    PackedTail(paras, g2);
    var a, b := g1[0], g2[0];
    var m := |a|;
    if m < |b| {
      assert b[..m] == a;
      NextChunkStart(paras, g1);
      assert g1[1][0] == b[m];
      SumSnoc(a, b[m]);
      assert b[..m + 1] == a + [b[m]];
      // `b` holds at least two paragraphs, so it is within the limit, and
      // so is `a` with the paragraph that follows it.
      SumPrefix(b, m + 1);
      assert false;
    }
  }

  /** A first chunk that leaves paragraphs over is followed by a chunk starting with the next one. */
  lemma NextChunkStart(paras: seq<string>, groups: seq<seq<string>>)
    requires Packed(paras, groups) && groups != [] && |groups[0]| < |paras|
    ensures |groups| > 1 && groups[1][0] == paras[|groups[0]|]
  {
    PackedTail(paras, groups);
    var rest := paras[|groups[0]|..];
    assert Flatten(groups[1..]) == rest != [];
    assert groups[1..] != [];
    FlattenFront(groups[1..]);
    assert groups[1..][0] == groups[1];
  }

  // ---------------------------------------------------------------------------
  // The scaffold

  /**
   * `s.replace(/\s+/g, ' ')`: every run of white space becomes one space.
   */
  function CollapseSpaces(s: string): (r: string)
    ensures |r| <= |s|
    ensures r != [] ==> (r[0] == ' ' <==> IsSpace(s[0]))
    decreases |s|
  {
    if s == [] then []
    else if IsSpace(s[0]) then
      var rest := TrimStart(s[1..]);
      [' '] + CollapseSpaces(rest)
    else [s[0]] + CollapseSpaces(s[1..])
  }

  /** `text.slice(0, 140).replace(/\s+/g, ' ').trim()`. */
  function SourcePreview(text: string): (p: string)
    ensures |p| <= 140
    ensures p == [] || (!IsSpace(p[0]) && !IsSpace(p[|p| - 1]))
  {
    Trim(CollapseSpaces(if |text| <= 140 then text else text[..140]))
  }

  /** Collapsing changes only white space: every other character is kept, in order. */
  lemma {:induction false} CollapseKeepsText(s: string)
    ensures NonSpace(CollapseSpaces(s)) == NonSpace(s)
    decreases |s|
  {
    if s != [] {
      assert s == [s[0]] + s[1..];
      NonSpaceAppend([s[0]], s[1..]);
      if IsSpace(s[0]) {
        var rest := TrimStart(s[1..]);
        CollapseKeepsText(rest);
        TrimStartKeepsText(s[1..]);
        NonSpaceAppend([' '], CollapseSpaces(rest));
      } else {
        CollapseKeepsText(s[1..]);
        NonSpaceAppend([s[0]], CollapseSpaces(s[1..]));
      }
    }
  }

  /** Text whose white space is already single spaces is left as it is. */
  lemma {:induction false} CollapseFixes(s: string)
    requires SingleSpaced(s)
    ensures CollapseSpaces(s) == s
    decreases |s|
  {
    if s != [] {
      SuffixSingleSpaced(s, 1);
      CollapseFixes(s[1..]);
      if IsSpace(s[0]) {
        assert |s| > 1 ==> !IsSpace(s[1]);
        assert TrimStart(s[1..]) == s[1..];
      }
      assert s == [s[0]] + s[1..];
    }
  }

  /**
   * The preview holds exactly the characters other than white space of the
   * first 140 characters of the chunk, in order.
   */
  lemma PreviewKeepsText(text: string)
    ensures NonSpace(SourcePreview(text)) == NonSpace(text[..if |text| <= 140 then |text| else 140])
  {
    var head := text[..if |text| <= 140 then |text| else 140];
    assert head == if |text| <= 140 then text else text[..140];
    TrimKeepsText(CollapseSpaces(head));
    CollapseKeepsText(head);
  }

  /** A short chunk that is trimmed and single-spaced is its own preview. */
  lemma PreviewOfClean(text: string)
    requires |text| <= 140 && SingleSpaced(text)
    requires text == [] || (!IsSpace(text[0]) && !IsSpace(text[|text| - 1]))
    ensures SourcePreview(text) == text
  {
    CollapseFixes(text);
    TrimFixes(text);
  }

  /** White space only as single spaces. */
  predicate SingleSpaced(s: string)
  {
    forall k :: 0 <= k < |s| && IsSpace(s[k]) ==> s[k] == ' ' && (k + 1 < |s| ==> s[k + 1] != ' ')
  }

  /** Collapsing leaves no white space but single spaces. */
  lemma {:induction false} CollapsedIsSingleSpaced(s: string)
    ensures SingleSpaced(CollapseSpaces(s))
    decreases |s|
  {
    if s != [] {
      if IsSpace(s[0]) {
        var rest := TrimStart(s[1..]);
        CollapsedIsSingleSpaced(rest);
        ConsSingleSpaced(' ', CollapseSpaces(rest));
      } else {
        CollapsedIsSingleSpaced(s[1..]);
        ConsSingleSpaced(s[0], CollapseSpaces(s[1..]));
      }
    }
  }

  /** A character put in front of single-spaced text keeps it single-spaced unless it makes a double space. */
  lemma ConsSingleSpaced(c: char, t: string)
    requires SingleSpaced(t)
    requires IsSpace(c) ==> c == ' ' && (t == [] || t[0] != ' ')
    ensures SingleSpaced([c] + t)
  {
    var u := [c] + t;
    forall k | 0 <= k < |u| && IsSpace(u[k])
      ensures u[k] == ' ' && (k + 1 < |u| ==> u[k + 1] != ' ')
    {
      if k > 0 {
        assert u[k] == t[k - 1];
        if k + 1 < |u| {
          assert u[k + 1] == t[k];
        }
      }
    }
  }

  /** A prefix of single-spaced text is single-spaced. */
  lemma PrefixSingleSpaced(s: string, j: nat)
    requires SingleSpaced(s) && j <= |s|
    ensures SingleSpaced(s[..j])
  {
    var t := s[..j];
    forall k | 0 <= k < |t| && IsSpace(t[k])
      ensures t[k] == ' ' && (k + 1 < |t| ==> t[k + 1] != ' ')
    {
      assert t[k] == s[k];
      if k + 1 < |t| {
        assert t[k + 1] == s[k + 1];
      }
    }
  }

  /** A suffix of single-spaced text is single-spaced. */
  lemma SuffixSingleSpaced(s: string, i: nat)
    requires SingleSpaced(s) && i <= |s|
    ensures SingleSpaced(s[i..])
  {
    var t := s[i..];
    forall k | 0 <= k < |t| && IsSpace(t[k])
      ensures t[k] == ' ' && (k + 1 < |t| ==> t[k + 1] != ' ')
    {
      assert t[k] == s[i + k];
      if k + 1 < |t| {
        assert t[k + 1] == s[i + k + 1];
      }
    }
  }

  /** Trimming the end keeps text single-spaced. */
  lemma TrimEndSingleSpaced(s: string)
    requires SingleSpaced(s)
    ensures SingleSpaced(TrimEnd(s))
  {
    PrefixSingleSpaced(s, |TrimEnd(s)|);
  }

  /** Trimming the start keeps text single-spaced. */
  lemma TrimStartSingleSpaced(s: string)
    requires SingleSpaced(s)
    ensures SingleSpaced(TrimStart(s))
  {
    SuffixSingleSpaced(s, |s| - |TrimStart(s)|);
  }

  /** The preview of any chunk is single-spaced. */
  lemma PreviewSingleSpaced(text: string)
    ensures SingleSpaced(SourcePreview(text))
  {
    var head := if |text| <= 140 then text else text[..140];
    CollapsedIsSingleSpaced(head);
    TrimEndSingleSpaced(CollapseSpaces(head));
    TrimStartSingleSpaced(TrimEnd(CollapseSpaces(head)));
  }

  /** In a single-spaced text with no white space at either end, every space lies between two other characters. */
  lemma InnerSpaces(p: string)
    requires SingleSpaced(p) && (p == [] || (!IsSpace(p[0]) && !IsSpace(p[|p| - 1])))
    ensures forall k :: 0 <= k < |p| && IsSpace(p[k]) ==> p[k] == ' ' && 0 < k < |p| - 1 && p[k + 1] != ' '
  {
  }

  /** The preview holds no white space but single spaces between words. */
  lemma PreviewSpacing(text: string)
    ensures var p := SourcePreview(text);
      forall k :: 0 <= k < |p| && IsSpace(p[k]) ==> p[k] == ' ' && 0 < k < |p| - 1 && p[k + 1] != ' '
  {
    PreviewSingleSpaced(text);
    InnerSpaces(SourcePreview(text));
  }

  /** One scaffold record; `source_hash` is not part of this model and `suggested_action` is always null. */
  datatype ScaffoldEntry = ScaffoldEntry(chapter: int, provisionalOrder: int, sourcePreview: string, notes: string)

  const Notes := "TODO classify & extract discrete events; may split."

  /** The record for the chunk `text` at position i. */
  function Entry(text: string, i: nat, chapter: int): (e: ScaffoldEntry)
    ensures e.chapter == chapter && e.provisionalOrder == i + 1
    ensures e.sourcePreview == SourcePreview(text) && |e.sourcePreview| <= 140
  {
    ScaffoldEntry(chapter, i + 1, SourcePreview(text), Notes)
  }

  /**
   * `chunks.map((text, i) => ...)`: one record per chunk, numbered from 1
   * in chunk order, each tagged with the chapter and previewing its chunk.
   */
  function Scaffold(chunks: seq<string>, chapter: int): (s: seq<ScaffoldEntry>)
    ensures |s| == |chunks|
    ensures forall i :: 0 <= i < |s| ==> s[i].chapter == chapter && s[i].provisionalOrder == i + 1
    ensures forall i :: 0 <= i < |s| ==> s[i].sourcePreview == SourcePreview(chunks[i]) && |s[i].sourcePreview| <= 140
  {
    seq(|chunks|, i requires 0 <= i < |chunks| => Entry(chunks[i], i, chapter))
  }

  /** The written report, without its time stamp. */
  datatype Report = Report(chapter: int, paragraphCount: nat, chunkCount: nat, scaffold: seq<ScaffoldEntry>)

  /** How the script ends. */
  datatype Outcome =
    | MissingChapter  // exit 1
    | NotFound        // exit 2
    | Written(report: Report)

  /** `process.exit`: 1 for a missing chapter, 2 for one not found, otherwise the script ends normally. */
  function ExitCode(o: Outcome): (code: int)
    ensures code == 0 <==> o.Written?
    ensures 0 <= code <= 2
  {
    match o
    case MissingChapter => 1
    case NotFound => 2
    case Written(_) => 0
  }

  /**
   * The script. `parts` is the manuscript split at its chapter headings and
   * `splitParagraphs` the split of a chapter text at its blank lines.
   */
  method Extract(argv: seq<string>, parts: seq<string>, splitParagraphs: string -> seq<string>) returns (out: Outcome)
    ensures out == MissingChapter <==> ChapterArg(argv).None?
    ensures out == NotFound <==> (ChapterArg(argv).Some?
      && forall j :: 0 <= j < |parts| ==> HeadingNumber(parts[j]) != Some(ChapterArg(argv).value))
    ensures out.Written? ==>
      var n := ChapterArg(argv).value;
      exists i: nat :: FirstHeaded(parts, n, i)
        && var paras := Paragraphs(splitParagraphs(parts[i]));
        && out.report == Report(n, |paras|, |Pack(paras)|, Scaffold(ChunkTexts(Pack(paras)), n))
  {
    var chapter := ChapterArg(argv);
    if chapter.None? {
      return MissingChapter;
    }
    var n := chapter.value;
    var found := SelectChapter(parts, n);
    if found.None? {
      return NotFound;
    }
    var paras := Paragraphs(splitParagraphs(parts[found.value]));
    var groups, chunks := PackChunks(paras);
    out := Written(Report(n, |paras|, |chunks|, Scaffold(chunks, n)));
  }
}

/**
 Text chunking before Amazon Comprehend (`ComprehendService._chunk_text`):
 text over the byte limit is cut at newlines into chunks built by joining
 paragraphs with "\n" while the result stays within the limit; a paragraph
 that does not fit on its own starts a new chunk, cut to the limit.

 The code cuts such a paragraph to `max_bytes` CHARACTERS (`CharSlice`),
 which for multi-byte text leaves chunks over the byte limit; `ByteSlice`
 is the cut the surrounding documentation promises, and `ChunkText` (used by
 the rest of the model) chunks with it.
 */
module Chunking {
  import opened Strings

  /** Comprehend's synchronous per-request limit, in bytes. */
  const MAX_BYTES: nat := 5000

  /** How a paragraph too large for one chunk is cut. */
  datatype Truncation = CharSlice | ByteSlice

  /** The longest prefix of `p` whose UTF-8 encoding fits in `maxBytes`. */
  function TakeBytes(p: string, maxBytes: nat): (r: string)
    ensures r <= p && Utf8Length(r) <= maxBytes
    ensures r == p || (|r| < |p| && Utf8Length(p[..|r| + 1]) > maxBytes)
    decreases |p|
  {
    if p == [] then ""
    else if Utf8Width(p[0]) > maxBytes then
      assert p[..1][1..] == [];
      ""
    else
      var rest := TakeBytes(p[1..], maxBytes - Utf8Width(p[0]));
      var r := [p[0]] + rest;
      assert r[1..] == rest;
      assert rest != p[1..] ==> p[..|r| + 1][1..] == p[1..][..|rest| + 1];
      assert p == [p[0]] + p[1..];
      r
  }

  /** The cut applied to a paragraph that does not fit on its own. */
  function Truncate(p: string, maxBytes: nat, mode: Truncation): (r: string)
    ensures r <= p && |r| <= maxBytes
    ensures Utf8Length(p) <= maxBytes ==> r == p
  {
    match mode
    case CharSlice => Take(p, maxBytes)
    case ByteSlice =>
      var r := TakeBytes(p, maxBytes);
      if r == p then r
      else
        Utf8LengthPrefix(p, |r| + 1);
        r
  }

  /**
   The loop over `paragraphs` with `current` the chunk being grown: a
   paragraph is joined on with "\n" while the join fits; otherwise the
   current chunk is emitted (when non-empty) and the paragraph, cut, starts
   the next one. The last chunk is emitted when non-empty.
   */
  function Chunks(paragraphs: seq<string>, current: string, maxBytes: nat, mode: Truncation): (chunks: seq<string>)
    requires |current| <= maxBytes
    ensures forall i :: 0 <= i < |chunks| ==> chunks[i] != "" && |chunks[i]| <= maxBytes
    ensures current != "" ==> chunks != []
    decreases |paragraphs|
  {
    if paragraphs == [] then
      (if current != "" then [current] else [])
    else
      var p := paragraphs[0];
      var test := if current != "" then current + "\n" + p else p;
      if Utf8Length(test) > maxBytes then
        (if current != "" then [current] else []) + Chunks(paragraphs[1..], Truncate(p, maxBytes, mode), maxBytes, mode)
      else
        Chunks(paragraphs[1..], test, maxBytes, mode)
  }

  /**
   `_chunk_text(text, max_bytes)` with the given cut: text within the limit is
   one chunk (even when empty); otherwise no chunk is empty. Every chunk has
   at most `maxBytes` characters.
   */
  function ChunkWith(text: string, maxBytes: nat, mode: Truncation): (chunks: seq<string>)
    ensures Utf8Length(text) <= maxBytes ==> chunks == [text]
    ensures Utf8Length(text) > maxBytes ==> forall i :: 0 <= i < |chunks| ==> chunks[i] != ""
    ensures forall i :: 0 <= i < |chunks| ==> |chunks[i]| <= maxBytes
  {
    if Utf8Length(text) <= maxBytes then [text]
    else Chunks(Split(text, '\n'), "", maxBytes, mode)
  }

  /** `_chunk_text` as the code is written: oversized paragraphs cut to `max_bytes` characters. */
  function ChunkTextAsWritten(text: string, maxBytes: nat): seq<string> {
    ChunkWith(text, maxBytes, CharSlice)
  }

  /** `_chunk_text` with oversized paragraphs cut to `max_bytes` bytes. */
  function ChunkText(text: string, maxBytes: nat): seq<string> {
    ChunkWith(text, maxBytes, ByteSlice)
  }

  /* ---------------------------------------------------------------------- */
  /* Byte bounds                                                            */
  /* ---------------------------------------------------------------------- */

  /** Every chunk fits in `maxBytes` bytes. */
  predicate AllFit(chunks: seq<string>, maxBytes: nat) {
    forall i :: 0 <= i < |chunks| ==> Utf8Length(chunks[i]) <= maxBytes
  }

  lemma {:induction false} ChunksFit(paragraphs: seq<string>, current: string, maxBytes: nat)
    requires Utf8Length(current) <= maxBytes
    ensures AllFit(Chunks(paragraphs, current, maxBytes, ByteSlice), maxBytes)
    decreases |paragraphs|
  {
    var chunks := Chunks(paragraphs, current, maxBytes, ByteSlice);
    if paragraphs != [] {
      var p := paragraphs[0];
      var test := if current != "" then current + "\n" + p else p;
      if Utf8Length(test) > maxBytes {
        var head := if current != "" then [current] else [];
        var cut := Truncate(p, maxBytes, ByteSlice);
        var tail := Chunks(paragraphs[1..], cut, maxBytes, ByteSlice);
        ChunksFit(paragraphs[1..], cut, maxBytes);
        assert chunks == head + tail;
        AppendFit(head, tail, maxBytes);
      } else {
        ChunksFit(paragraphs[1..], test, maxBytes);
        assert chunks == Chunks(paragraphs[1..], test, maxBytes, ByteSlice);
      }
    }
  }

  lemma AppendFit(head: seq<string>, tail: seq<string>, maxBytes: nat)
    requires AllFit(head, maxBytes) && AllFit(tail, maxBytes)
    ensures AllFit(head + tail, maxBytes)
  {
    assert forall i :: |head| <= i < |head + tail| ==> (head + tail)[i] == tail[i - |head|];
  }

  /** With the byte-accurate cut every chunk fits Comprehend's limit. */
  lemma ChunkTextFits(text: string, maxBytes: nat)
    ensures AllFit(ChunkText(text, maxBytes), maxBytes)
  {
    if Utf8Length(text) > maxBytes {
      ChunksFit(Split(text, '\n'), "", maxBytes);
      assert ChunkText(text, maxBytes) == Chunks(Split(text, '\n'), "", maxBytes, ByteSlice);
    }
  }

  /** `c` fits in `maxBytes`, or is a prefix of one of `paragraphs`. */
  predicate FitsOrCut(c: string, paragraphs: seq<string>, maxBytes: nat) {
    Utf8Length(c) <= maxBytes || exists j :: 0 <= j < |paragraphs| && c <= paragraphs[j]
  }

  /** Every chunk fits, or is a prefix of one of `paragraphs`. */
  predicate AllFitOrCut(chunks: seq<string>, paragraphs: seq<string>, maxBytes: nat) {
    forall i :: 0 <= i < |chunks| ==> FitsOrCut(chunks[i], paragraphs, maxBytes)
  }

  lemma AppendFitOrCut(head: seq<string>, tail: seq<string>, paragraphs: seq<string>, maxBytes: nat)
    requires AllFitOrCut(head, paragraphs, maxBytes) && AllFitOrCut(tail, paragraphs, maxBytes)
    ensures AllFitOrCut(head + tail, paragraphs, maxBytes)
  {
    assert forall i :: |head| <= i < |head + tail| ==> (head + tail)[i] == tail[i - |head|];
  }

  lemma {:induction false} ChunksFitOrCut(all: seq<string>, paragraphs: seq<string>, current: string, maxBytes: nat, mode: Truncation)
    requires |paragraphs| <= |all| && paragraphs == all[|all| - |paragraphs|..]
    requires |current| <= maxBytes && FitsOrCut(current, all, maxBytes)
    ensures AllFitOrCut(Chunks(paragraphs, current, maxBytes, mode), all, maxBytes)
    decreases |paragraphs|
  {
    var chunks := Chunks(paragraphs, current, maxBytes, mode);
    if paragraphs != [] {
      var p := paragraphs[0];
      var test := if current != "" then current + "\n" + p else p;
      var j := |all| - |paragraphs|;
      assert p == all[j];
      assert paragraphs[1..] == all[|all| - |paragraphs[1..]|..];
      if Utf8Length(test) > maxBytes {
        var head := if current != "" then [current] else [];
        var cut := Truncate(p, maxBytes, mode);
        assert cut <= all[j];
        var tail := Chunks(paragraphs[1..], cut, maxBytes, mode);
        ChunksFitOrCut(all, paragraphs[1..], cut, maxBytes, mode);
        assert chunks == head + tail;
        AppendFitOrCut(head, tail, all, maxBytes);
      } else {
        ChunksFitOrCut(all, paragraphs[1..], test, maxBytes, mode);
        assert chunks == Chunks(paragraphs[1..], test, maxBytes, mode);
      }
    }
  }

  /**
   As written, a chunk over the byte limit can only be the start of a single
   paragraph that was cut to `maxBytes` characters.
   */
  lemma AsWrittenFitsOrCut(text: string, maxBytes: nat)
    ensures AllFitOrCut(ChunkTextAsWritten(text, maxBytes), Split(text, '\n'), maxBytes)
  {
    if Utf8Length(text) > maxBytes {
      var ps := Split(text, '\n');
      assert ps == ps[|ps| - |ps|..];
      ChunksFitOrCut(ps, ps, "", maxBytes, CharSlice);
      assert ChunkTextAsWritten(text, maxBytes) == Chunks(ps, "", maxBytes, CharSlice);
    }
  }

  /* ---------------------------------------------------------------------- */
  /* Characters                                                             */
  /* ---------------------------------------------------------------------- */

  /** Every chunk holds only characters satisfying `p`. */
  predicate AllKeep(chunks: seq<string>, p: char -> bool) {
    forall i :: 0 <= i < |chunks| ==> AllChars(chunks[i], p)
  }

  lemma AppendKeep(head: seq<string>, tail: seq<string>, p: char -> bool)
    requires AllKeep(head, p) && AllKeep(tail, p)
    ensures AllKeep(head + tail, p)
  {
    assert forall i :: |head| <= i < |head + tail| ==> (head + tail)[i] == tail[i - |head|];
  }

  /** Joining two lines with "\n" keeps a character class both lines and "\n" have. */
  lemma JoinLineKeepsChars(a: string, b: string, p: char -> bool)
    requires p('\n') && AllChars(a, p) && AllChars(b, p)
    ensures AllChars(a + "\n" + b, p)
  {
    var t := a + "\n" + b;
    forall i | 0 <= i < |t| ensures p(t[i]) {
      if i < |a| {
        assert t[i] == a[i];
      } else if i > |a| {
        assert t[i] == b[i - |a| - 1];
      }
    }
  }

  lemma {:induction false} ChunksKeepChars(paragraphs: seq<string>, current: string, maxBytes: nat, mode: Truncation, p: char -> bool)
    requires p('\n')
    requires |current| <= maxBytes && AllChars(current, p)
    requires forall i :: 0 <= i < |paragraphs| ==> AllChars(paragraphs[i], p)
    ensures AllKeep(Chunks(paragraphs, current, maxBytes, mode), p)
    decreases |paragraphs|
  {
    var chunks := Chunks(paragraphs, current, maxBytes, mode);
    if paragraphs != [] {
      var q := paragraphs[0];
      var test := if current != "" then current + "\n" + q else q;
      assert AllChars(q, p);
      if Utf8Length(test) > maxBytes {
        var head := if current != "" then [current] else [];
        var cut := Truncate(q, maxBytes, mode);
        assert cut == q[..|cut|];
        SliceKeepsChars(q, 0, |cut|, p);
        var tail := Chunks(paragraphs[1..], cut, maxBytes, mode);
        ChunksKeepChars(paragraphs[1..], cut, maxBytes, mode, p);
        assert chunks == head + tail;
        AppendKeep(head, tail, p);
      } else {
        if current != "" {
          JoinLineKeepsChars(current, q, p);
        }
        ChunksKeepChars(paragraphs[1..], test, maxBytes, mode, p);
        assert chunks == Chunks(paragraphs[1..], test, maxBytes, mode);
      }
    }
  }

  /** Chunks only hold characters of the text and "\n": a class that has both is kept. */
  lemma ChunkWithKeepsChars(text: string, maxBytes: nat, mode: Truncation, p: char -> bool)
    requires p('\n') && AllChars(text, p)
    ensures AllKeep(ChunkWith(text, maxBytes, mode), p)
  {
    if Utf8Length(text) > maxBytes {
      var ps := Split(text, '\n');
      SplitKeepsChars(text, '\n', p);
      ChunksKeepChars(ps, "", maxBytes, mode, p);
      assert ChunkWith(text, maxBytes, mode) == Chunks(ps, "", maxBytes, mode);
    }
  }

  /** For one-byte text the character cut is also a byte cut: every chunk fits. */
  lemma AsciiChunksFit(text: string, maxBytes: nat)
    requires AllChars(text, IsAscii)
    ensures AllFit(ChunkTextAsWritten(text, maxBytes), maxBytes)
  {
    var chunks := ChunkTextAsWritten(text, maxBytes);
    ChunkWithKeepsChars(text, maxBytes, CharSlice, IsAscii);
    forall i | 0 <= i < |chunks| ensures Utf8Length(chunks[i]) <= maxBytes {
      Utf8LengthAscii(chunks[i]);
    }
  }

  /** On one-byte text the byte cut is the character cut. */
  lemma TakeBytesAscii(p: string, maxBytes: nat)
    requires AllChars(p, IsAscii)
    ensures TakeBytes(p, maxBytes) == Take(p, maxBytes)
  {
    var r := TakeBytes(p, maxBytes);
    AsciiPrefix(p, |r|);
    Utf8LengthAscii(r);
    if r != p {
      AsciiPrefix(p, |r| + 1);
      Utf8LengthAscii(p[..|r| + 1]);
    }
  }

  /** Every prefix of one-byte text is one-byte text. */
  lemma AsciiPrefix(p: string, n: nat)
    requires AllChars(p, IsAscii) && n <= |p|
    ensures AllChars(p[..n], IsAscii)
  {
    assert forall i :: 0 <= i < n ==> p[..n][i] == p[i];
  }

  /** The chunk loop over one-byte paragraphs emits the same chunks under either cut. */
  lemma {:induction false} ChunksAscii(paragraphs: seq<string>, current: string, maxBytes: nat)
    requires |current| <= maxBytes
    requires forall i :: 0 <= i < |paragraphs| ==> AllChars(paragraphs[i], IsAscii)
    ensures Chunks(paragraphs, current, maxBytes, ByteSlice) == Chunks(paragraphs, current, maxBytes, CharSlice)
    decreases |paragraphs|
  {
    if paragraphs != [] {
      var p := paragraphs[0];
      var test := if current != "" then current + "\n" + p else p;
      assert forall i :: 0 <= i < |paragraphs[1..]| ==> paragraphs[1..][i] == paragraphs[i + 1];
      if Utf8Length(test) > maxBytes {
        TakeBytesAscii(p, maxBytes);
        ChunksAscii(paragraphs[1..], Truncate(p, maxBytes, CharSlice), maxBytes);
      } else {
        ChunksAscii(paragraphs[1..], test, maxBytes);
      }
    }
  }

  /** For one-byte text the code's chunking and the corrected chunking are the same. */
  lemma AsciiChunkingAgrees(text: string, maxBytes: nat)
    requires AllChars(text, IsAscii)
    ensures ChunkTextAsWritten(text, maxBytes) == ChunkText(text, maxBytes)
  {
    if Utf8Length(text) > maxBytes {
      SplitKeepsChars(text, '\n', IsAscii);
      ChunksAscii(Split(text, '\n'), "", maxBytes);
    }
  }

  /** Whitespace-only text yields whitespace-only chunks. */
  lemma BlankTextBlankChunks(text: string, maxBytes: nat, mode: Truncation)
    requires AllChars(text, IsSpace)
    ensures AllKeep(ChunkWith(text, maxBytes, mode), IsSpace)
  {
    ChunkWithKeepsChars(text, maxBytes, mode, IsSpace);
  }

  /* ---------------------------------------------------------------------- */
  /* Order and content                                                      */
  /* ---------------------------------------------------------------------- */

  /** Emitting `current` in front of chunks that spell out `rest` spells out `current` then `rest`. */
  lemma EmitThenJoin(current: string, tail: seq<string>, rest: seq<string>)
    requires current != "" && tail != [] && rest != []
    requires Join(tail, "\n") == Join(rest, "\n")
    ensures Join([current] + tail, "\n") == Join([current] + rest, "\n")
  {
    JoinCons(current, tail, "\n");
    JoinCons(current, rest, "\n");
  }

  /** Growing `current` by "\n" and the next paragraph keeps what the pieces spell out. */
  lemma GrowThenJoin(current: string, p: string, rest: seq<string>)
    requires current != ""
    ensures Join([current + "\n" + p] + rest, "\n") == Join([current] + ([p] + rest), "\n")
  {
    JoinCons(current, [p] + rest, "\n");
    if rest != [] {
      JoinCons(current + "\n" + p, rest, "\n");
      JoinCons(p, rest, "\n");
    } else {
      assert [current + "\n" + p] + rest == [current + "\n" + p];
      assert [p] + rest == [p];
    }
  }

  /** Every paragraph is non-empty and fits on its own. */
  predicate Chunkable(paragraphs: seq<string>, maxBytes: nat) {
    forall i :: 0 <= i < |paragraphs| ==> paragraphs[i] != "" && Utf8Length(paragraphs[i]) <= maxBytes
  }

  lemma {:induction false} ChunksJoin(paragraphs: seq<string>, current: string, maxBytes: nat, mode: Truncation)
    requires Utf8Length(current) <= maxBytes && Chunkable(paragraphs, maxBytes)
    ensures Join(Chunks(paragraphs, current, maxBytes, mode), "\n")
         == if current == "" then Join(paragraphs, "\n") else Join([current] + paragraphs, "\n")
    decreases |paragraphs|
  {
    if paragraphs == [] {
      assert [current] + paragraphs == [current];
    } else {
      var p := paragraphs[0];
      var rest := paragraphs[1..];
      assert paragraphs == [p] + rest;
      assert p != "" && Utf8Length(p) <= maxBytes;
      if current == "" {
        assert Chunks(paragraphs, current, maxBytes, mode) == Chunks(rest, p, maxBytes, mode);
        ChunksJoin(rest, p, maxBytes, mode);
      } else {
        var test := current + "\n" + p;
        if Utf8Length(test) > maxBytes {
          var cut := Truncate(p, maxBytes, mode);
          assert cut == p;
          var tail := Chunks(rest, p, maxBytes, mode);
          assert Chunks(paragraphs, current, maxBytes, mode) == [current] + tail;
          ChunksJoin(rest, p, maxBytes, mode);
          EmitThenJoin(current, tail, paragraphs);
        } else {
          assert Chunks(paragraphs, current, maxBytes, mode) == Chunks(rest, test, maxBytes, mode);
          ChunksJoin(rest, test, maxBytes, mode);
          GrowThenJoin(current, p, rest);
        }
      }
    }
  }

  /**
   When every paragraph is non-empty and fits, chunking loses nothing and
   keeps the order: joining the chunks with "\n" gives the text back.
   */
  lemma ChunkingKeepsText(text: string, maxBytes: nat, mode: Truncation)
    requires Chunkable(Split(text, '\n'), maxBytes)
    ensures Join(ChunkWith(text, maxBytes, mode), "\n") == text
  {
    if Utf8Length(text) > maxBytes {
      var ps := Split(text, '\n');
      ChunksJoin(ps, "", maxBytes, mode);
      JoinSplit(text, '\n');
    }
  }

  /* ---------------------------------------------------------------------- */
  /* Text made only of newlines                                             */
  /* ---------------------------------------------------------------------- */

  predicate IsNewline(c: char) {
    c == '\n'
  }

  lemma {:induction false} ChunksOfEmptyParagraphs(paragraphs: seq<string>, maxBytes: nat, mode: Truncation)
    requires forall i :: 0 <= i < |paragraphs| ==> paragraphs[i] == ""
    ensures Chunks(paragraphs, "", maxBytes, mode) == []
    decreases |paragraphs|
  {
    if paragraphs != [] {
      ChunksOfEmptyParagraphs(paragraphs[1..], maxBytes, mode);
    }
  }

  /** A string of newlines with no newline in it is empty. */
  lemma NoNewlineLeft(s: string)
    ensures AllChars(s, IsNewline) && '\n' !in s ==> s == ""
  {
    if s != [] && AllChars(s, IsNewline) {
      assert s[0] in s;
    }
  }

  /** Text of only newlines, longer than the limit, yields no chunk at all. */
  lemma NewlinesYieldNoChunks(text: string, maxBytes: nat, mode: Truncation)
    requires AllChars(text, IsNewline)
    requires Utf8Length(text) > maxBytes
    ensures ChunkWith(text, maxBytes, mode) == []
  {
    var ps := Split(text, '\n');
    SplitKeepsChars(text, '\n', IsNewline);
    forall i | 0 <= i < |ps| ensures ps[i] == "" {
      NoNewlineLeft(ps[i]);
    }
    ChunksOfEmptyParagraphs(ps, maxBytes, mode);
  }

  /** A paragraph of `n` copies of `c`, too long for the limit, is cut to `maxBytes` copies. */
  lemma {:induction false} RunIsCut(c: char, n: nat, maxBytes: nat)
    requires c != '\n' && n > maxBytes > 0
    ensures ChunkTextAsWritten(seq(n, _ => c), maxBytes) == [seq(maxBytes, _ => c)]
  {
    var text := seq(n, _ => c);
    Utf8LengthRun(c, n);
    assert Utf8Length(text) >= n;
    assert '\n' !in text;
    SplitNoSeparator(text, '\n');
    assert Split(text, '\n') == [text];
    var cut := Truncate(text, maxBytes, CharSlice);
    assert cut == text[..maxBytes] == seq(maxBytes, _ => c);
    assert Chunks([text], "", maxBytes, CharSlice) == Chunks([], cut, maxBytes, CharSlice);
    assert cut != "";
  }

  /** One paragraph of 5001 'é' (two bytes each). */
  function WideParagraph(): string {
    seq(MAX_BYTES + 1, _ => 'é')
  }

  /**
   As written, the 5001-character paragraph of two-byte 'é' comes out as one
   chunk of 5000 characters, 10000 bytes: twice Comprehend's limit.
   */
  lemma AsWrittenChunkOverflows()
    ensures var chunks := ChunkTextAsWritten(WideParagraph(), MAX_BYTES);
      |chunks| == 1 && Utf8Length(chunks[0]) == 2 * MAX_BYTES
  {
    RunIsCut('é', MAX_BYTES + 1, MAX_BYTES);
    Utf8LengthRun('é', MAX_BYTES);
  }
}

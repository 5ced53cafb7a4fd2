/** `processRawBuffer` of gpu-load-controller.js: cutting a device's output into lines. Decoding UTF-8
    is a parameter; parsing a line and dispatching it come after what is modelled here. */
module LineFramer {
  import opened ByteString
  import opened Sequences
  import opened Text

  const NEWLINE: byte := 0x0a

  /** What follows the last newline. */
  function Tail(s: Bytes): Bytes {
    if s == [] || s[|s| - 1] == NEWLINE then [] else Tail(s[..|s| - 1]) + [s[|s| - 1]]
  }

  /** The terminated lines, without their newlines. */
  function Lines(s: Bytes): seq<Bytes> {
    if s == [] then []
    else if s[|s| - 1] == NEWLINE then Lines(s[..|s| - 1]) + [Tail(s[..|s| - 1])]
    else Lines(s[..|s| - 1])
  }

  function Unlines(lines: seq<Bytes>): Bytes {
    if lines == [] then [] else Unlines(lines[..|lines| - 1]) + lines[|lines| - 1] + [NEWLINE]
  }

  /** Lines and tail are a cutting of the stream at exactly its newlines. */
  lemma {:induction false} LinesRebuild(s: Bytes)
    ensures Unlines(Lines(s)) + Tail(s) == s
    ensures NEWLINE !in Tail(s) && forall l :: l in Lines(s) ==> NEWLINE !in l
  {
    if s != [] {
      var front := s[..|s| - 1];
      LinesRebuild(front);
      assert s == front + [s[|s| - 1]];
      if s[|s| - 1] == NEWLINE {
        assert Unlines(Lines(s)) == Unlines(Lines(front)) + Tail(front) + [NEWLINE];
      }
    }
  }

  lemma LinesOfOneMore(s: Bytes, b: byte)
    ensures Lines(s + [b]) == Lines(s) + if b == NEWLINE then [Tail(s)] else []
    ensures Tail(s + [b]) == if b == NEWLINE then [] else Tail(s) + [b]
  {
    assert (s + [b])[..|s|] == s;
  }

  lemma LinesAppendOne(a: Bytes, front: Bytes, last: byte)
    requires Lines(a + front) == Lines(a) + Lines(Tail(a) + front) && Tail(a + front) == Tail(Tail(a) + front)
    ensures Lines((a + front) + [last]) == Lines(a) + Lines((Tail(a) + front) + [last])
    ensures Tail((a + front) + [last]) == Tail((Tail(a) + front) + [last])
  {
    LinesOfOneMore(a + front, last);
    LinesOfOneMore(Tail(a) + front, last);
    Associate(Lines(a), Lines(Tail(a) + front), if last == NEWLINE then [Tail(a + front)] else []);
  }

  /** Only what is unterminated matters to what comes next. */
  lemma {:induction false} LinesAppend(a: Bytes, b: Bytes)
    ensures Lines(a + b) == Lines(a) + Lines(Tail(a) + b)
    ensures Tail(a + b) == Tail(Tail(a) + b)
  {
    if b == [] {
      assert a + b == a && Tail(a) + b == Tail(a);
      TailHasNoLines(a);
    } else {
      LinesAppend(a, b[..|b| - 1]);
      LinesAppendOne(a, b[..|b| - 1], b[|b| - 1]);
      SplitLast(a, b);
      SplitLast(Tail(a), b);
    }
  }

  lemma {:induction false} TailHasNoLines(a: Bytes)
    ensures Lines(Tail(a)) == [] && Tail(Tail(a)) == Tail(a)
  {
    if a != [] && a[|a| - 1] != NEWLINE {
      TailHasNoLines(a[..|a| - 1]);
      assert Tail(a)[..|Tail(a)| - 1] == Tail(a[..|a| - 1]);
    }
  }

  type Decode = Bytes -> string

  /** What a line hands on to be parsed: its trimmed text, unless that is empty. */
  function TextOf(c: Decode, line: Bytes): seq<string> {
    var text := Trim(c(line));
    if text == "" then [] else [text]
  }

  function Texts(c: Decode, lines: seq<Bytes>): seq<string> {
    if lines == [] then [] else Texts(c, lines[..|lines| - 1]) + TextOf(c, lines[|lines| - 1])
  }

  lemma TextsOfOneMore(c: Decode, lines: seq<Bytes>, line: Bytes)
    ensures Texts(c, lines + [line]) == Texts(c, lines) + TextOf(c, line)
  {
    assert (lines + [line])[..|lines|] == lines;
  }

  lemma TextsAppendOne(c: Decode, a: seq<Bytes>, front: seq<Bytes>, last: Bytes)
    requires Texts(c, a + front) == Texts(c, a) + Texts(c, front)
    ensures Texts(c, (a + front) + [last]) == Texts(c, a) + (Texts(c, front) + TextOf(c, last))
  {
    TextsOfOneMore(c, a + front, last);
    Associate(Texts(c, a), Texts(c, front), TextOf(c, last));
  }

  lemma {:induction false} TextsAppend(c: Decode, a: seq<Bytes>, b: seq<Bytes>)
    ensures Texts(c, a + b) == Texts(c, a) + Texts(c, b)
  {
    if b == [] {
      assert a + b == a;
    } else {
      TextsAppend(c, a, b[..|b| - 1]);
      TextsAppendOne(c, a, b[..|b| - 1], b[|b| - 1]);
      SplitLast(a, b);
    }
  }

  /** The buffer and the texts handled after one more chunk. */
  function Feed(c: Decode, buffer: Bytes, handled: seq<string>, chunk: Bytes): (Bytes, seq<string>) {
    (Tail(buffer + chunk), handled + Texts(c, Lines(buffer + chunk)))
  }

  function FeedAll(c: Decode, chunks: seq<Bytes>): (Bytes, seq<string>) {
    if chunks == [] then ([], [])
    else
      var (buffer, handled) := FeedAll(c, chunks[..|chunks| - 1]);
      Feed(c, buffer, handled, chunks[|chunks| - 1])
  }

  /** However the stream is cut into chunks, what is handled are the lines of the whole stream, in
      order, and what is kept is its unterminated tail. */
  lemma {:induction false} ChunkingIrrelevant(c: Decode, chunks: seq<Bytes>)
    ensures FeedAll(c, chunks) == (Tail(Concat(chunks)), Texts(c, Lines(Concat(chunks))))
  {
    if chunks != [] {
      var front, last := chunks[..|chunks| - 1], chunks[|chunks| - 1];
      ChunkingIrrelevant(c, front);
      var s := Concat(front);
      LinesAppend(s, last);
      TextsAppend(c, Lines(s), Lines(Tail(s) + last));
    }
  }

  // ---- which lines are handled ------------------------------------------------------

  /** The line is handed on: its text is not blank. */
  predicate Speaks(c: Decode, line: Bytes) {
    Trim(c(line)) != ""
  }

  /** These are the places of the lines that are not blank. */
  ghost predicate PlacesOf(c: Decode, lines: seq<Bytes>, at: seq<nat>) {
    && (forall k :: 0 <= k < |at| ==> at[k] < |lines| && Speaks(c, lines[at[k]]))
    && (forall j, k :: 0 <= j < k < |at| ==> at[j] < at[k])
    && (forall i: nat :: i < |lines| && Speaks(c, lines[i]) ==> i in at)
  }

  ghost predicate TextsAt(c: Decode, lines: seq<Bytes>, texts: seq<string>, at: seq<nat>) {
    |at| == |texts| && forall k :: 0 <= k < |at| ==> at[k] < |lines| && texts[k] == Trim(c(lines[at[k]]))
  }

  lemma TextsAppendedAt(c: Decode, front: seq<Bytes>, last: Bytes, texts: seq<string>, at: seq<nat>)
    requires TextsAt(c, front, texts, at)
    ensures TextsAt(c, front + [last], texts, at)
    ensures TextsAt(c, front + [last], texts + [Trim(c(last))], at + [|front|])
  {
  }

  lemma TextsOfNext(c: Decode, front: seq<Bytes>, last: Bytes)
    ensures Texts(c, front + [last]) == if Speaks(c, last) then Texts(c, front) + [Trim(c(last))] else Texts(c, front)
  {
    TextsOfOneMore(c, front, last);
    NothingMore(Texts(c, front), []);
  }

  /** What is handled is the trimmed text of exactly the lines that are not blank, in their order. */
  lemma {:induction false} TextsAreHandled(c: Decode, lines: seq<Bytes>) returns (at: seq<nat>)
    ensures PlacesOf(c, lines, at)
    ensures TextsAt(c, lines, Texts(c, lines), at)
  {
    if lines == [] {
      at := [];
    } else {
      var front, last := lines[..|lines| - 1], lines[|lines| - 1];
      var before := TextsAreHandled(c, front);
      at := if Speaks(c, last) then before + [|front|] else before;
      PlacesAppend(c, front, last, before);
      TextsAppendedAt(c, front, last, Texts(c, front), before);
      TextsOfNext(c, front, last);
      FrontAndLast(lines);
    }
  }

  lemma PlacesAppend(c: Decode, front: seq<Bytes>, last: Bytes, at: seq<nat>)
    requires PlacesOf(c, front, at)
    ensures PlacesOf(c, front + [last], if Speaks(c, last) then at + [|front|] else at)
  {
    var lines, after := front + [last], if Speaks(c, last) then at + [|front|] else at;
    forall i: nat | i < |lines| && Speaks(c, lines[i]) ensures i in after {
      if i < |front| {
        assert Speaks(c, front[i]) && i in at;
      } else {
        assert after[|after| - 1] == i;
      }
    }
  }

  /** A device's `rawBuf`, with the texts passed to `JSON.parse` and on to `handleMessage`. */
  class Framer {
    const decode: Decode
    var rawBuf: Bytes
    var handled: seq<string>

    constructor (decode: Decode)
      ensures this.decode == decode && (rawBuf, handled) == FeedAll(decode, [])
    {
      this.decode := decode;
      rawBuf := [];
      handled := [];
    }

    /** The `data` handler. */
    method OnData(data: Bytes)
      modifies this
      ensures (rawBuf, handled) == Feed(decode, old(rawBuf), old(handled), data)
    {
      rawBuf := rawBuf + data;
      ProcessRawBuffer();
    }

    method ProcessRawBuffer()
      modifies this
      ensures rawBuf == Tail(old(rawBuf))
      ensures handled == old(handled) + Texts(decode, Lines(old(rawBuf)))
    {
      var lineStart, texts := ScanLines(decode, rawBuf);
      handled := handled + texts;
      if lineStart > 0 {
        rawBuf := rawBuf[lineStart..];
      }
    }
  }

  /** The scanning loop: the texts to handle, in order, and where the tail starts. */
  method ScanLines(c: Decode, buf: Bytes) returns (lineStart: nat, texts: seq<string>)
    ensures lineStart <= |buf| && buf[lineStart..] == Tail(buf)
    ensures texts == Texts(c, Lines(buf))
  {
    lineStart, texts := 0, [];
    for i := 0 to |buf|
      invariant lineStart <= i && Tail(buf[..i]) == buf[lineStart..i]
      invariant texts == Texts(c, Lines(buf[..i]))
    {
      ScanStep(c, buf, lineStart, i);
      if buf[i] == NEWLINE {
        texts := texts + TextOf(c, buf[lineStart..i]);
        lineStart := i + 1;
      }
    }
    assert buf[..|buf|] == buf;
  }

  lemma TailStep(s: Bytes, lineStart: nat, i: nat)
    requires lineStart <= i < |s| && Tail(s[..i]) == s[lineStart..i]
    ensures Tail(s[..i + 1]) == s[if s[i] == NEWLINE then i + 1 else lineStart..i + 1]
    ensures Lines(s[..i + 1]) == if s[i] == NEWLINE then Lines(s[..i]) + [s[lineStart..i]] else Lines(s[..i])
  {
    assert s[0..i + 1] == s[..i + 1] && s[0..i] == s[..i];
    OneMore(s, 0, i);
    OneMore(s, lineStart, i);
    LinesOfOneMore(s[..i], s[i]);
  }

  /** One turn of the scanning loop. */
  lemma ScanStep(c: Decode, s: Bytes, lineStart: nat, i: nat)
    requires lineStart <= i < |s| && Tail(s[..i]) == s[lineStart..i]
    ensures Tail(s[..i + 1]) == s[if s[i] == NEWLINE then i + 1 else lineStart..i + 1]
    ensures Texts(c, Lines(s[..i + 1])) ==
            if s[i] == NEWLINE then Texts(c, Lines(s[..i])) + TextOf(c, s[lineStart..i]) else Texts(c, Lines(s[..i]))
  {
    TailStep(s, lineStart, i);
    TextsOfOneMore(c, Lines(s[..i]), s[lineStart..i]);
  }
}

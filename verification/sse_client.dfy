/** The client side of the query event stream: the received text is cut into
    blocks at blank lines ("\n\n"), each block's "event:" and "data:" lines are read
    with multi-line regular expressions, and the query state follows the error and
    done events. Decoding the bytes is left to the platform, so chunks are text. */
module SseClient {
  import opened Wrappers
  import opened Text
  import opened Json
  import EventStream

  // ---------------------------------------------------------------------------
  // Cutting text at "\n\n"

  /** Two consecutive line feeds at `i`. */
  predicate BlankAt(s: string, i: nat)
    requires i + 1 < |s|
  {
    s[i] == '\n' && s[i + 1] == '\n'
  }

  /** `s` has no "\n\n" in it. */
  predicate NoBlankLine(s: string) {
    forall i :: 0 <= i < |s| - 1 ==> !BlankAt(s, i)
  }

  /** Left-to-right state of `split("\n\n")`: the pieces already cut off and the
      piece being read. */
  datatype Splitter = Splitter(blocks: seq<string>, cur: string)

  /** One more character: a line feed right after a line feed ends the current
      piece (without either of them). */
  function Feed(st: Splitter, c: char): Splitter {
    if c == '\n' && st.cur != [] && st.cur[|st.cur| - 1] == '\n' then Splitter(st.blocks + [st.cur[..|st.cur| - 1]], [])
    else Splitter(st.blocks, st.cur + [c])
  }

  /** One character cuts a piece exactly when it is a line feed after a line
      feed: the piece is what was read before the first of the two, and reading
      starts afresh. Otherwise the character joins the current piece. */
  lemma FeedCuts(st: Splitter, c: char)
    ensures var r := Feed(st, c);
            st.blocks <= r.blocks && |r.blocks| <= |st.blocks| + 1 &&
            (|r.blocks| == |st.blocks| + 1 <==> c == '\n' && EndsWith(st.cur, "\n")) &&
            (|r.blocks| == |st.blocks| + 1 ==> st.cur == r.blocks[|st.blocks|] + "\n" && r.cur == []) &&
            (|r.blocks| == |st.blocks| ==> r.cur == st.cur + [c])
  {
    if c == '\n' && st.cur != [] && st.cur[|st.cur| - 1] == '\n' {
      assert st.cur == st.cur[..|st.cur| - 1] + "\n";
    }
  }

  function FeedAll(st: Splitter, s: string): Splitter
    decreases |s|
  {
    if s == [] then st else FeedAll(Feed(st, s[0]), s[1..])
  }

  /** `s.split("\n\n")`: at least one piece, the last one being what follows the
      final separator. */
  function SplitBlocks(s: string): (r: seq<string>)
    ensures |r| >= 1
  {
    var st := FeedAll(Splitter([], []), s);
    st.blocks + [st.cur]
  }

  lemma {:induction false} FeedAllAppend(st: Splitter, x: string, y: string)
    ensures FeedAll(st, x + y) == FeedAll(FeedAll(st, x), y)
    decreases |x|
  {
    if x == [] {
      assert x + y == y;
    } else {
      assert (x + y)[0] == x[0] && (x + y)[1..] == x[1..] + y;
      FeedAllAppend(Feed(st, x[0]), x[1..], y);
    }
  }

  /** The pieces already cut off are never touched again. */
  lemma {:induction false} FeedAllKeepsBlocks(bs: seq<string>, cur: string, s: string)
    ensures var alone := FeedAll(Splitter([], cur), s);
            FeedAll(Splitter(bs, cur), s) == Splitter(bs + alone.blocks, alone.cur)
    decreases |s|
  {
    if s != [] {
      var a := Feed(Splitter(bs, cur), s[0]);
      var b := Feed(Splitter([], cur), s[0]);
      assert a == Splitter(bs + b.blocks, b.cur);
      FeedAllKeepsBlocks(a.blocks, a.cur, s[1..]);
      FeedAllKeepsBlocks(b.blocks, b.cur, s[1..]);
      assert bs + b.blocks + FeedAll(Splitter([], b.cur), s[1..]).blocks
          == bs + (b.blocks + FeedAll(Splitter([], b.cur), s[1..]).blocks);
    }
  }

  /** Text without a blank line is read into the current piece without a cut. */
  lemma {:induction false} FeedAllNoBlank(bs: seq<string>, p: string, s: string)
    requires NoBlankLine(p + s)
    ensures FeedAll(Splitter(bs, p), s) == Splitter(bs, p + s)
    decreases |s|
  {
    if s != [] {
      if s[0] == '\n' && p != [] && p[|p| - 1] == '\n' {
        assert BlankAt(p + s, |p| - 1);
        assert false;
      }
      assert p + s == (p + [s[0]]) + s[1..];
      FeedAllNoBlank(bs, p + [s[0]], s[1..]);
    }
  }

  /** The current piece never holds a blank line, and no piece that has been cut
      off ends in a line feed. */
  predicate Tidy(st: Splitter) {
    NoBlankLine(st.cur)
    && forall k :: 0 <= k < |st.blocks| ==> NoBlankLine(st.blocks[k]) && !EndsWith(st.blocks[k], "\n")
  }

  lemma FeedTidy(st: Splitter, c: char)
    requires Tidy(st)
    ensures Tidy(Feed(st, c))
  {
    var n := |st.cur|;
    if c == '\n' && st.cur != [] && st.cur[n - 1] == '\n' {
      var piece := st.cur[..n - 1];
      assert forall i :: 0 <= i < |piece| - 1 ==> BlankAt(piece, i) == BlankAt(st.cur, i);
      if EndsWith(piece, "\n") {
        assert BlankAt(st.cur, n - 2);
      }
    } else {
      var next := st.cur + [c];
      assert forall i :: 0 <= i < |st.cur| - 1 ==> BlankAt(next, i) == BlankAt(st.cur, i);
    }
  }

  lemma {:induction false} FeedAllTidy(st: Splitter, s: string)
    requires Tidy(st)
    ensures Tidy(FeedAll(st, s))
    decreases |s|
  {
    if s != [] {
      FeedTidy(st, s[0]);
      FeedAllTidy(Feed(st, s[0]), s[1..]);
    }
  }

  /** Joining the pieces with "\n\n" gives the text back. */
  lemma {:induction false} FeedAllJoin(st: Splitter, s: string)
    ensures var e := FeedAll(st, s);
            Join(e.blocks + [e.cur], "\n\n") == Join(st.blocks + [st.cur], "\n\n") + s
    decreases |s|
  {
    if s != [] {
      FeedJoin(st, s[0]);
      FeedAllJoin(Feed(st, s[0]), s[1..]);
      assert Join(st.blocks + [st.cur], "\n\n") + [s[0]] + s[1..] == Join(st.blocks + [st.cur], "\n\n") + s;
    }
  }

  lemma FeedJoin(st: Splitter, c: char)
    ensures var e := Feed(st, c);
            Join(e.blocks + [e.cur], "\n\n") == Join(st.blocks + [st.cur], "\n\n") + [c]
  {
    var n := |st.cur|;
    if c == '\n' && st.cur != [] && st.cur[n - 1] == '\n' {
      var piece := st.cur[..n - 1];
      assert st.cur == piece + "\n";
      if st.blocks == [] {
        assert [piece] + [[]] == [piece, []];
        assert Join([piece, []], "\n\n") == piece + "\n\n" + Join([[]], "\n\n");
      } else {
        JoinSnoc(st.blocks + [piece], [], "\n\n");
        JoinSnoc(st.blocks, piece, "\n\n");
        JoinSnoc(st.blocks, st.cur, "\n\n");
        assert Join(st.blocks, "\n\n") + "\n\n" + piece + "\n\n" + []
            == Join(st.blocks, "\n\n") + "\n\n" + (piece + "\n") + "\n";
      }
    } else if st.blocks == [] {
      assert [st.cur] == [st.cur];
    } else {
      JoinSnoc(st.blocks, st.cur, "\n\n");
      JoinSnoc(st.blocks, st.cur + [c], "\n\n");
    }
  }

  /** `split("\n\n")` cuts at the leftmost separators: joining the pieces gives the
      text back, no piece holds "\n\n", and no piece but the last ends in a line
      feed (which would have made an earlier separator). */
  lemma SplitBlocksSound(s: string)
    ensures Join(SplitBlocks(s), "\n\n") == s
    ensures forall k :: 0 <= k < |SplitBlocks(s)| ==> NoBlankLine(SplitBlocks(s)[k])
    ensures forall k :: 0 <= k < |SplitBlocks(s)| - 1 ==> !EndsWith(SplitBlocks(s)[k], "\n")
  {
    var e := FeedAll(Splitter([], []), s);
    FeedAllJoin(Splitter([], []), s);
    assert Join([] + [[]], "\n\n") == [];
    FeedAllTidy(Splitter([], []), s);
    var r := SplitBlocks(s);
    assert r == e.blocks + [e.cur];
    assert forall k :: 0 <= k < |r| - 1 ==> r[k] == e.blocks[k];
  }

  // ---------------------------------------------------------------------------
  // The read loop

  /** What follows the stream's last separator, trimmed, when it is not blank. */
  function Rest(cur: string): (r: seq<string>)
    ensures |r| <= 1
    ensures r != [] ==> r[0] == Trim(cur) && r[0] != []
  {
    if Trim(cur) != [] then [Trim(cur)] else []
  }

  /** The blocks handed to `processBlock`, in order, when `chunks` are read after
      `buffer`: each read appends its text, every complete block is processed and
      the last piece is carried over; the final read adds nothing, and what is left
      is processed once trimmed, if anything is left. */
  function Drain(buffer: string, chunks: seq<string>): (r: seq<string>)
    decreases |chunks|
  {
    if chunks == [] then
      var parts := SplitBlocks(buffer);
      parts[..|parts| - 1] + Rest(parts[|parts| - 1])
    else
      var parts := SplitBlocks(buffer + chunks[0]);
      parts[..|parts| - 1] + Drain(parts[|parts| - 1], chunks[1..])
  }

  /** The blocks of a whole text received at once. */
  function Blocks(s: string): (r: seq<string>) {
    var e := FeedAll(Splitter([], []), s);
    e.blocks + Rest(e.cur)
  }

  /** A carried-over piece is read back as it was. */
  lemma SplitAfter(buffer: string, c: string)
    requires NoBlankLine(buffer)
    ensures var st := FeedAll(Splitter([], buffer), c);
            SplitBlocks(buffer + c) == st.blocks + [st.cur] && NoBlankLine(st.cur)
  {
    assert [] + buffer == buffer;
    FeedAllNoBlank([], [], buffer);
    FeedAllAppend(Splitter([], []), buffer, c);
    FeedAllTidy(Splitter([], buffer), c);
  }

  lemma {:induction false} DrainIsBlocks(buffer: string, chunks: seq<string>)
    requires NoBlankLine(buffer)
    ensures var e := FeedAll(Splitter([], buffer), Concat(chunks));
            Drain(buffer, chunks) == e.blocks + Rest(e.cur)
    decreases |chunks|
  {
    if chunks == [] {
      SplitAfter(buffer, []);
      assert buffer + [] == buffer;
    } else {
      var st1 := FeedAll(Splitter([], buffer), chunks[0]);
      DrainStep(buffer, chunks);
      DrainIsBlocks(st1.cur, chunks[1..]);
      FeedAllSplit(buffer, chunks);
    }
  }

  lemma DrainStep(buffer: string, chunks: seq<string>)
    requires NoBlankLine(buffer) && chunks != []
    ensures var st1 := FeedAll(Splitter([], buffer), chunks[0]);
            NoBlankLine(st1.cur) && Drain(buffer, chunks) == st1.blocks + Drain(st1.cur, chunks[1..])
  {
    var st1 := FeedAll(Splitter([], buffer), chunks[0]);
    SplitAfter(buffer, chunks[0]);
    assert (st1.blocks + [st1.cur])[..|st1.blocks|] == st1.blocks;
  }

  lemma FeedAllSplit(buffer: string, chunks: seq<string>)
    requires chunks != []
    ensures var st1 := FeedAll(Splitter([], buffer), chunks[0]);
            var x := FeedAll(Splitter([], st1.cur), Concat(chunks[1..]));
            var e := FeedAll(Splitter([], buffer), Concat(chunks));
            e.blocks + Rest(e.cur) == st1.blocks + (x.blocks + Rest(x.cur))
  {
    var st1 := FeedAll(Splitter([], buffer), chunks[0]);
    var tail := Concat(chunks[1..]);
    assert Concat(chunks) == chunks[0] + tail;
    FeedAllAppend(Splitter([], buffer), chunks[0], tail);
    FeedAllKeepsBlocks(st1.blocks, st1.cur, tail);
    var x := FeedAll(Splitter([], st1.cur), tail);
    assert st1 == Splitter(st1.blocks, st1.cur);
    var e := FeedAll(Splitter([], buffer), Concat(chunks));
    assert e == Splitter(st1.blocks + x.blocks, x.cur);
    BlocksAssoc(st1.blocks, x.blocks, Rest(x.cur));
  }

  lemma BlocksAssoc(a: seq<string>, b: seq<string>, c: seq<string>)
    ensures (a + b) + c == a + (b + c)
  {
  }

  /** However the text is cut into chunks, the same blocks are processed as when it
      arrives at once. */
  lemma ChunkingIrrelevant(chunks: seq<string>)
    ensures Drain([], chunks) == Blocks(Concat(chunks))
  {
    DrainIsBlocks([], chunks);
  }

  // ---------------------------------------------------------------------------
  // Reading a block

  /** Where a line ends for `^`, `$` and `.`. In the code this is ECMA-262's
      LineTerminator; the event-stream format ends lines at CR and LF only. */
  type LineEnds = char -> bool

  predicate IsCrLf(c: char) { c == '\n' || c == '\r' }

  /** `^` matches at `p`. */
  predicate LineStart(b: string, p: nat, eol: LineEnds)
    requires p <= |b|
  {
    p == 0 || eol(b[p - 1])
  }

  /** The length of the run of `\s` characters at `q`. */
  function SpaceRun(b: string, q: nat): (r: nat)
    requires q <= |b|
    ensures q + r <= |b|
    ensures forall k :: q <= k < q + r ==> IsSpace(b[k])
    ensures q + r < |b| ==> !IsSpace(b[q + r])
    decreases |b| - q
  {
    if q < |b| && IsSpace(b[q]) then 1 + SpaceRun(b, q + 1) else 0
  }

  /** Where the line through `i` ends: the next line end, or the end of the text. */
  function LineEnd(b: string, i: nat, eol: LineEnds): (r: nat)
    requires i <= |b|
    ensures i <= r <= |b|
    ensures forall k :: i <= k < r ==> !eol(b[k])
    ensures r < |b| ==> eol(b[r])
    decreases |b| - i
  {
    if i == |b| || eol(b[i]) then i else LineEnd(b, i + 1, eol)
  }

  /** `\s*` gives back characters until `.` can start: the longest `n <= w` with a
      character at `q + n` that is not a line end. */
  function BackOff(b: string, q: nat, w: nat, eol: LineEnds): (r: Option<nat>)
    requires q + w <= |b|
    ensures r.Some? ==> r.value <= w && q + r.value < |b| && !eol(b[q + r.value])
    ensures r.Some? ==> forall k :: q + r.value < k <= q + w ==> k == |b| || eol(b[k])
    ensures r.None? ==> forall k :: q <= k <= q + w ==> k == |b| || eol(b[k])
    decreases w
  {
    if q + w < |b| && !eol(b[q + w]) then Some(w)
    else if w == 0 then None
    else BackOff(b, q, w - 1, eol)
  }

  /** `\s*(.+)$` at `q`: the captured text, from the first character `.` takes to
      the end of its line. */
  function CaptureAt(b: string, q: nat, eol: LineEnds): (r: Option<string>)
    requires q <= |b|
    ensures r.Some? ==> r.value != []
  {
    match BackOff(b, q, SpaceRun(b, q), eol)
    case None => None
    case Some(n) => Some(b[q + n..LineEnd(b, q + n, eol)])
  }

  /** The capture of `^key:\s*(.+)$` when the match starts at `i`, if it does. */
  function KeyCapture(b: string, key: string, eol: LineEnds, i: nat): (r: Option<string>)
    requires i <= |b|
    ensures r.Some? ==> LineStart(b, i, eol) && StartsWith(b[i..], key + ":") && r.value != []
  {
    if LineStart(b, i, eol) && StartsWith(b[i..], key + ":") then CaptureAt(b, i + |key| + 1, eol) else None
  }

  /** The capture is the rest of one line: it holds no line end, it is preceded
      by white space only, and it runs up to a line end or the end of the text.
      There is none exactly when the white space runs into a line end or the end
      of the text with no other character to give back. */
  lemma CaptureAtLine(b: string, q: nat, eol: LineEnds)
    requires q <= |b|
    ensures var r := CaptureAt(b, q, eol);
            (r.Some? ==> forall k :: 0 <= k < |r.value| ==> !eol(r.value[k])) &&
            (r.None? <==> forall k :: q <= k < |b| && k <= q + SpaceRun(b, q) ==> eol(b[k]))
  {
    match BackOff(b, q, SpaceRun(b, q), eol)
    case None =>
    case Some(n) =>
      var e := LineEnd(b, q + n, eol);
      assert forall k :: q + n <= k < e ==> !eol(b[k]);
  }

  /** `b.match(/^key:\s*(.+)$/m)?.[1]`, searching line starts from `p` on. */
  function FindLine(b: string, key: string, eol: LineEnds, p: nat): (r: Option<string>)
    requires p <= |b|
    decreases |b| - p
  {
    var here := KeyCapture(b, key, eol, p);
    if here.Some? then here
    else if p == |b| then None
    else FindLine(b, key, eol, p + 1)
  }

  /** `processBlock` up to `JSON.parse`: the trimmed event type and the data text,
      when the block has both lines. */
  function ReadBlock(b: string, eol: LineEnds): (r: Option<(string, string)>)
    ensures r.Some? ==> r.value.1 != [] && NoEdgeSpace(r.value.0)
    ensures r.Some? <==> FindLine(b, "event", eol, 0).Some? && FindLine(b, "data", eol, 0).Some?
  {
    var ev := FindLine(b, "event", eol, 0);
    var da := FindLine(b, "data", eol, 0);
    if ev.None? || da.None? then None
    else
      var d := da.value;
      assert d != [] by {
        FindLineNonEmpty(b, "data", eol, 0);
      }
      Some((Trim(ev.value), d))
  }

  lemma {:induction false} FindLineNonEmpty(b: string, key: string, eol: LineEnds, p: nat)
    requires p <= |b|
    ensures FindLine(b, key, eol, p).Some? ==> FindLine(b, key, eol, p).value != []
    decreases |b| - p
  {
    if p < |b| {
      FindLineNonEmpty(b, key, eol, p + 1);
    }
  }

  /** `match` finds nothing exactly when the pattern matches at no position. */
  lemma {:induction false} FindLineNone(b: string, key: string, eol: LineEnds, p: nat)
    requires p <= |b|
    ensures FindLine(b, key, eol, p).None? <==> forall i :: p <= i <= |b| ==> KeyCapture(b, key, eol, i).None?
    decreases |b| - p
  {
    if KeyCapture(b, key, eol, p).None? && p < |b| {
      FindLineNone(b, key, eol, p + 1);
      assert FindLine(b, key, eol, p) == FindLine(b, key, eol, p + 1);
    }
  }

  /** `match` finds the first position where the pattern matches: the result is
      the capture there. */
  lemma {:induction false} FindLineFirst(b: string, key: string, eol: LineEnds, p: nat)
    requires p <= |b|
    ensures FindLine(b, key, eol, p).Some? ==>
              exists i :: p <= i <= |b| && KeyCapture(b, key, eol, i) == FindLine(b, key, eol, p) &&
                          forall j :: p <= j < i ==> KeyCapture(b, key, eol, j).None?
    decreases |b| - p
  {
    var r := FindLine(b, key, eol, p);
    if KeyCapture(b, key, eol, p).Some? {
      assert KeyCapture(b, key, eol, p) == r;
    } else if p < |b| && r.Some? {
      assert r == FindLine(b, key, eol, p + 1);
      FindLineFirst(b, key, eol, p + 1);
      var i :| p + 1 <= i <= |b| && KeyCapture(b, key, eol, i) == r &&
               forall j :: p + 1 <= j < i ==> KeyCapture(b, key, eol, j).None?;
      assert forall j :: p <= j < i ==> KeyCapture(b, key, eol, j).None?;
    }
  }

  /** Line starts where the key is absent are passed over. */
  lemma {:induction false} FindLineSkips(b: string, key: string, eol: LineEnds, p: nat, m: nat)
    requires p <= m <= |b|
    requires forall i :: p <= i < m ==> !LineStart(b, i, eol) || !StartsWith(b[i..], key + ":")
    ensures FindLine(b, key, eol, p) == FindLine(b, key, eol, m)
    decreases m - p
  {
    if p < m {
      FindLineSkips(b, key, eol, p + 1, m);
    }
  }

  /** A text on one line, starting with a character other than white space. */
  predicate OneLine(s: string, eol: LineEnds) {
    s != [] && !IsSpace(s[0]) && forall k :: 0 <= k < |s| ==> !eol(s[k])
  }

  /** The line ends of the code and of the event-stream format both end lines at
      LF and at no character of "event: " or "data: ". */
  predicate Sensible(eol: LineEnds) {
    eol('\n') && forall c :: eol(c) ==> IsLineTerminator(c)
  }

  /** The capture after "key: " is the rest of that line. */
  lemma CaptureAfterColon(b: string, q: nat, j: nat, eol: LineEnds)
    requires q + 1 < j <= |b| && b[q] == ' ' && !IsSpace(b[q + 1]) && !eol(b[q + 1])
    requires forall k :: q + 1 <= k < j ==> !eol(b[k])
    requires j == |b| || eol(b[j])
    ensures CaptureAt(b, q, eol) == Some(b[q + 1..j])
  {
    assert SpaceRun(b, q + 1) == 0;
    assert SpaceRun(b, q) == 1;
    LineEndIs(b, q + 1, j, eol);
  }

  lemma {:induction false} LineEndIs(b: string, i: nat, j: nat, eol: LineEnds)
    requires i <= j <= |b|
    requires forall k :: i <= k < j ==> !eol(b[k])
    requires j == |b| || eol(b[j])
    ensures LineEnd(b, i, eol) == j
    decreases j - i
  {
    if i < j {
      LineEndIs(b, i + 1, j, eol);
    }
  }

  /** The "event:" line of a frame gives back the type. */
  lemma EventLineOfBlock(name: string, json: string, eol: LineEnds)
    requires Sensible(eol) && OneLine(name, eol)
    ensures FindLine(EventStream.Block(name, json), "event", eol, 0) == Some(name)
  {
    var b := EventStream.Block(name, json);
    var j := 7 + |name|;
    assert b[..6] == "event:";
    assert b[0..][..|"event" + ":"|] == "event:";
    assert b[6] == ' ' && b[7] == name[0];
    assert b[j] == '\n';
    assert forall k :: 7 <= k < j ==> b[k] == name[k - 7];
    CaptureAfterColon(b, 6, j, eol);
    assert b[7..j] == name;
  }

  /** The "data:" line of a frame gives back the data up to its first line end. */
  lemma DataLineOfBlock(name: string, json: string, eol: LineEnds, j: nat)
    requires Sensible(eol) && OneLine(name, eol)
    requires 0 < j <= |json| && !IsSpace(json[0])
    requires forall k :: 0 <= k < j ==> !eol(json[k])
    requires j == |json| || eol(json[j])
    ensures FindLine(EventStream.Block(name, json), "data", eol, 0) == Some(json[..j])
  {
    SkipEventLine(name, json, eol);
    DataLineAt(name, json, eol, j);
  }

  /** The characters of a frame's block, position by position. */
  lemma BlockLayout(name: string, json: string)
    ensures var b := EventStream.Block(name, json);
            var m := 8 + |name|;
            |b| == m + 6 + |json|
            && b[..7] == "event: " && b[m - 1] == '\n'
            && (forall k :: 7 <= k < m - 1 ==> b[k] == name[k - 7])
            && b[m..m + 5] == "data:" && b[m + 5] == ' '
            && (forall k :: m + 6 <= k < |b| ==> b[k] == json[k - m - 6])
  {
    var b := EventStream.Block(name, json);
    var m := 8 + |name|;
    assert b == ("event: " + name + "\n") + ("data: " + json);
    assert b[m..] == "data: " + json;
    assert b[m..m + 5] == b[m..][..5];
  }

  /** No line before the second one of a frame starts with "data:". */
  lemma SkipEventLine(name: string, json: string, eol: LineEnds)
    requires Sensible(eol) && OneLine(name, eol)
    ensures var b := EventStream.Block(name, json);
            FindLine(b, "data", eol, 0) == FindLine(b, "data", eol, 8 + |name|)
  {
    var b := EventStream.Block(name, json);
    var m := 8 + |name|;
    BlockLayout(name, json);
    assert !StartsWith(b, "data" + ":") by {
      assert b[0] == "event: "[0];
    }
    assert forall k :: 0 <= k < m - 1 ==> !eol(b[k]) by {
      EventPrefixUnbroken();
      forall k | 0 <= k < m - 1 ensures !eol(b[k]) {
        if k < 7 {
          assert b[k] == "event: "[k];
        } else {
          assert b[k] == name[k - 7];
        }
      }
    }
    forall i | 0 <= i < m
      ensures !LineStart(b, i, eol) || !StartsWith(b[i..], "data" + ":")
    {
      if i == 0 {
        assert b[0..] == b;
      } else {
        assert !eol(b[i - 1]);
      }
    }
    FindLineSkips(b, "data", eol, 0, m);
  }

  /** No character of "event: " ends a line. */
  lemma EventPrefixUnbroken()
    ensures forall k :: 0 <= k < 7 ==> !IsLineTerminator("event: "[k])
  {
  }

  /** A line "key: text" at a line start is matched there, capturing the text. */
  lemma FindLineAt(b: string, key: string, eol: LineEnds, p: nat, j: nat)
    requires p + |key| + 2 < j <= |b| && LineStart(b, p, eol)
    requires b[p..p + |key| + 1] == key + ":" && b[p + |key| + 1] == ' '
    requires !IsSpace(b[p + |key| + 2]) && !eol(b[p + |key| + 2])
    requires forall k :: p + |key| + 2 <= k < j ==> !eol(b[k])
    requires j == |b| || eol(b[j])
    ensures FindLine(b, key, eol, p) == Some(b[p + |key| + 2..j])
  {
    CaptureAfterColon(b, p + |key| + 1, j, eol);
    assert b[p..][..|key| + 1] == b[p..p + |key| + 1];
    assert StartsWith(b[p..], key + ":");
    assert FindLine(b, key, eol, p) == CaptureAt(b, p + |key| + 1, eol);
  }

  /** The second line of a frame is its "data:" line. */
  lemma DataLineAt(name: string, json: string, eol: LineEnds, j: nat)
    requires eol('\n')
    requires 0 < j <= |json| && !IsSpace(json[0])
    requires forall k :: 0 <= k < j ==> !eol(json[k])
    requires j == |json| || eol(json[j])
    ensures FindLine(EventStream.Block(name, json), "data", eol, 8 + |name|) == Some(json[..j])
  {
    var b := EventStream.Block(name, json);
    var m := 8 + |name|;
    BlockLayout(name, json);
    assert 0 < m && m + 6 + |json| == |b|;
    assert eol(b[m - 1]);
    assert b[m..m + 5] == "data:";
    assert b[m + 5] == ' ';
    assert forall k :: m + 6 <= k < |b| ==> b[k] == json[k - m - 6];
    TextLineAt(b, m, json, eol, j);
  }

  /** A "data: " line at `m` running to the end of the text. */
  lemma TextLineAt(b: string, m: nat, json: string, eol: LineEnds, j: nat)
    requires 0 < m && m + 6 + |json| == |b| && eol(b[m - 1])
    requires b[m..m + 5] == "data:" && b[m + 5] == ' '
    requires forall k :: m + 6 <= k < |b| ==> b[k] == json[k - m - 6]
    requires 0 < j <= |json| && !IsSpace(json[0])
    requires forall k :: 0 <= k < j ==> !eol(json[k])
    requires j == |json| || eol(json[j])
    ensures FindLine(b, "data", eol, m) == Some(json[..j])
  {
    assert b[m + 6] == json[0];
    if j < |json| {
      assert b[m + 6 + j] == json[j];
    }
    FindLineAt(b, "data", eol, m, m + 6 + j);
    assert b[m + 6..m + 6 + j] == json[..j];
  }

  /** Lines that end at CR and LF only, as the event-stream format has them. */
  lemma CrLfSensible()
    ensures Sensible(IsCrLf)
  {
  }

  /** Lines that end at ECMA-262's line terminators, as the code has them. */
  lemma LineTerminatorSensible()
    ensures Sensible(IsLineTerminator)
  {
  }

  /** A frame's block read back: its type and its data, when both are one line
      long and start with a character other than white space. */
  lemma ReadFrameBlock(name: string, json: string, eol: LineEnds)
    requires Sensible(eol) && OneLine(name, eol) && NoEdgeSpace(name) && OneLine(json, eol)
    ensures ReadBlock(EventStream.Block(name, json), eol) == Some((name, json))
  {
    EventLineOfBlock(name, json, eol);
    DataLineOfBlock(name, json, eol, |json|);
    assert json[..|json|] == json;
    TrimOfTrimmed(name);
  }

  /** A frame's block has a single line feed, between its two lines. */
  lemma BlockNoBlankLine(name: string, json: string, eol: LineEnds)
    requires Sensible(eol) && OneLine(name, eol) && OneLine(json, eol)
    ensures NoBlankLine(EventStream.Block(name, json))
    ensures !EndsWith(EventStream.Block(name, json), "\n")
  {
    var b := EventStream.Block(name, json);
    var m := 8 + |name|;
    BlockLayout(name, json);
    assert b[m..m + 5][0] == 'd';
    forall i | 0 <= i < |b| - 1
      ensures !BlankAt(b, i)
    {
      if i < 7 {
        assert b[i] == "event: "[i];
      } else if i < m - 1 {
        assert b[i] == name[i - 7];
      } else if i == m - 1 {
        assert b[i + 1] == 'd';
      } else if i < m + 5 {
        assert b[i] == b[m..m + 5][i - m];
      } else if i > m + 5 {
        assert b[i] == json[i - m - 6];
      }
    }
    assert b[|b| - 1] == json[|json| - 1];
  }

  /** Reading one frame cuts off exactly its block. */
  lemma FeedFrame(bs: seq<string>, block: string)
    requires NoBlankLine(block) && block != [] && !EndsWith(block, "\n")
    ensures FeedAll(Splitter(bs, []), block + "\n\n") == Splitter(bs + [block], [])
  {
    FeedAllAppend(Splitter(bs, []), block, "\n\n");
    assert [] + block == block;
    FeedAllNoBlank(bs, [], block);
    var st := Feed(Splitter(bs, block), '\n');
    assert block[|block| - 1] != '\n' by {
      assert block[|block| - 1..] == [block[|block| - 1]];
    }
    assert st == Splitter(bs, block + "\n");
    assert (block + "\n")[..|block|] == block;
    assert Feed(st, '\n') == Splitter(bs + [block], []);
    assert FeedAll(Splitter(bs, block), "\n\n") == FeedAll(Feed(st, '\n'), []);
  }


  /** The blocks of a sequence of frames. */
  function FrameBlocks(events: seq<EventStream.Event>, stringify: Json -> string): (r: seq<string>)
    ensures |r| == |events|
    ensures forall k :: 0 <= k < |events| ==>
              r[k] == EventStream.Block(EventStream.TypeName(events[k].kind), stringify(events[k].data))
  {
    seq(|events|, k requires 0 <= k < |events| =>
      EventStream.Block(EventStream.TypeName(events[k].kind), stringify(events[k].data)))
  }

  /** Every event serialises to one line. */
  predicate AllOneLine(events: seq<EventStream.Event>, stringify: Json -> string, eol: LineEnds) {
    forall k :: 0 <= k < |events| ==> OneLine(stringify(events[k].data), eol)
  }

  /** An event name is one line without edge white space. */
  lemma TypeNameOneLine(t: EventStream.EventType, eol: LineEnds)
    requires Sensible(eol)
    ensures OneLine(EventStream.TypeName(t), eol) && NoEdgeSpace(EventStream.TypeName(t))
  {
    var r := EventStream.TypeName(t);
    forall k | 0 <= k < |r|
      ensures !eol(r[k])
    {
      assert IsAsciiLower(r[k]);
    }
  }

  /** One frame is cut into its block. */
  lemma FeedOneFrame(bs: seq<string>, e: EventStream.Event, stringify: Json -> string, eol: LineEnds)
    requires Sensible(eol)
    requires OneLine(stringify(e.data), eol)
    ensures FeedAll(Splitter(bs, []), EventStream.Frame(e, stringify))
            == Splitter(bs + [EventStream.Block(EventStream.TypeName(e.kind), stringify(e.data))], [])
  {
    var name := EventStream.TypeName(e.kind);
    TypeNameOneLine(e.kind, eol);
    BlockNoBlankLine(name, stringify(e.data), eol);
    FeedFrame(bs, EventStream.Block(name, stringify(e.data)));
  }

  lemma AllOneLineTail(events: seq<EventStream.Event>, stringify: Json -> string, eol: LineEnds)
    requires events != [] && AllOneLine(events, stringify, eol)
    ensures OneLine(stringify(events[0].data), eol) && AllOneLine(events[1..], stringify, eol)
  {
    forall k | 0 <= k < |events| - 1 ensures OneLine(stringify(events[1..][k].data), eol) {
      assert events[1..][k] == events[k + 1];
    }
  }

  lemma FrameBlocksCons(bs: seq<string>, events: seq<EventStream.Event>, stringify: Json -> string)
    requires events != []
    ensures bs + [EventStream.Block(EventStream.TypeName(events[0].kind), stringify(events[0].data))]
               + FrameBlocks(events[1..], stringify)
            == bs + FrameBlocks(events, stringify)
  {
    var block := EventStream.Block(EventStream.TypeName(events[0].kind), stringify(events[0].data));
    assert FrameBlocks(events, stringify) == [block] + FrameBlocks(events[1..], stringify);
  }

  /** The stream of frames is cut into exactly their blocks. */
  lemma {:induction false} FeedFrames(bs: seq<string>, events: seq<EventStream.Event>, stringify: Json -> string, eol: LineEnds)
    requires Sensible(eol)
    requires AllOneLine(events, stringify, eol)
    ensures FeedAll(Splitter(bs, []), EventStream.Encode(events, stringify)) == Splitter(bs + FrameBlocks(events, stringify), [])
    decreases |events|
  {
    if events == [] {
      assert bs + FrameBlocks(events, stringify) == bs;
    } else {
      var e := events[0];
      var block := EventStream.Block(EventStream.TypeName(e.kind), stringify(e.data));
      var rest := events[1..];
      var frame := EventStream.Frame(e, stringify);
      var tail := EventStream.Encode(rest, stringify);
      AllOneLineTail(events, stringify, eol);
      assert EventStream.Encode(events, stringify) == frame + tail;
      FeedAllAppend(Splitter(bs, []), frame, tail);
      FeedOneFrame(bs, e, stringify, eol);
      FeedFrames(bs + [block], rest, stringify, eol);
      FrameBlocksCons(bs, events, stringify);
    }
  }

  // ---------------------------------------------------------------------------
  // The query state

  datatype QueryState = Idle | Streaming | Complete | Failed

  /** What the hook exposes: the events handed to the listener, the state, the
      error, and whether a block's data failed to parse (which rejects the call). */
  datatype View = View(events: seq<(string, Json)>, state: QueryState, error: Option<Json>, threw: bool)

  const StreamErrorDefault := "Unknown stream error"
  const StartFailed := "Failed to start query stream"

  /** The effect of one delivered event: it reaches the listener; an "error" event
      fails the query with its message, a "done" event completes it. */
  function Apply(v: View, kind: string, data: Json): (r: View)
    ensures r.events == v.events + [(kind, data)] && r.threw == v.threw
    ensures kind == "error" ==> r.state == Failed
    ensures kind == "done" ==> r.state == Complete
    ensures kind != "error" && kind != "done" ==> r.state == v.state && r.error == v.error
    ensures kind == "error" ==> r.error == Coalesce(Get(data, "message"), Some(JString(StreamErrorDefault)))
  {
    var delivered := v.(events := v.events + [(kind, data)]);
    var afterError :=
      if kind == "error" then delivered.(state := Failed, error := Coalesce(Get(data, "message"), Some(JString(StreamErrorDefault))))
      else delivered;
    if kind == "done" then afterError.(state := Complete) else afterError
  }

  /** `processBlock`: blocks without both lines are ignored; data that does not
      parse stops everything. */
  function Process(v: View, block: string, eol: LineEnds, parse: string -> Option<Json>): (r: View)
    ensures ReadBlock(block, eol).None? ==> r == v
    ensures ReadBlock(block, eol).Some? && parse(ReadBlock(block, eol).value.1).None? ==> r == v.(threw := true)
  {
    match ReadBlock(block, eol)
    case None => v
    case Some(line) =>
      match parse(line.1)
      case None => v.(threw := true)
      case Some(data) => Apply(v, line.0, data)
  }

  function ProcessAll(v: View, blocks: seq<string>, eol: LineEnds, parse: string -> Option<Json>): (r: View)
    ensures v.threw ==> r == v
    decreases |blocks|
  {
    if blocks == [] || v.threw then v else ProcessAll(Process(v, blocks[0], eol, parse), blocks[1..], eol, parse)
  }

  /** `sendQuery` once the request has been answered: `ok` says whether the answer
      was a successful one with a body, `chunks` are the texts read from it. */
  function SendQuery(ok: bool, chunks: seq<string>, eol: LineEnds, parse: string -> Option<Json>): (r: View)
    ensures !ok ==> r == View([], Failed, Some(JString(StartFailed)), false)
  {
    if !ok then View([], Failed, Some(JString(StartFailed)), false)
    else ProcessAll(View([], Streaming, None, false), Drain([], chunks), eol, parse)
  }

  /** The reference: the events' effects applied straight from their values. */
  function Replay(v: View, events: seq<EventStream.Event>): (r: View)
    ensures r.threw == v.threw
    ensures |r.events| == |v.events| + |events|
    decreases |events|
  {
    if events == [] then v
    else Replay(Apply(v, EventStream.TypeName(events[0].kind), events[0].data), events[1..])
  }

  /** Every serialised event parses back to itself. */
  predicate ParsesBack(events: seq<EventStream.Event>, stringify: Json -> string, parse: string -> Option<Json>) {
    forall k :: 0 <= k < |events| ==> parse(stringify(events[k].data)) == Some(events[k].data)
  }

  lemma {:induction false} ProcessFrames(v: View, events: seq<EventStream.Event>, stringify: Json -> string,
                                         parse: string -> Option<Json>, eol: LineEnds)
    requires Sensible(eol)
    requires !v.threw && AllOneLine(events, stringify, eol) && ParsesBack(events, stringify, parse)
    ensures ProcessAll(v, FrameBlocks(events, stringify), eol, parse) == Replay(v, events)
    decreases |events|
  {
    if events != [] {
      var e := events[0];
      var name := EventStream.TypeName(e.kind);
      var blocks := FrameBlocks(events, stringify);
        TypeNameOneLine(e.kind, eol);
      assert OneLine(stringify(e.data), eol);
      ReadFrameBlock(name, stringify(e.data), eol);
      assert parse(stringify(e.data)) == Some(e.data);
      var v1 := Apply(v, name, e.data);
      assert Process(v, blocks[0], eol, parse) == v1;
      assert blocks[1..] == FrameBlocks(events[1..], stringify);
      assert AllOneLine(events[1..], stringify, eol) && ParsesBack(events[1..], stringify, parse) by {
        forall k | 0 <= k < |events| - 1
          ensures OneLine(stringify(events[1..][k].data), eol) && parse(stringify(events[1..][k].data)) == Some(events[1..][k].data)
        {
          assert events[1..][k] == events[k + 1];
        }
      }
      ProcessFrames(v1, events[1..], stringify, parse, eol);
    }
  }

  /** The round trip of the event stream: whatever `createSSEStream` writes, cut
      into chunks however the network cuts it, reaches the listener as the same
      events in the same order, and leaves the state their effects give, provided
      each event's JSON is one line and parses back. What "one line" means depends
      on where the decoder ends lines. */
  lemma RoundTrip(events: seq<EventStream.Event>, stringify: Json -> string, parse: string -> Option<Json>,
                  chunks: seq<string>, eol: LineEnds)
    requires Sensible(eol)
    requires AllOneLine(events, stringify, eol) && ParsesBack(events, stringify, parse)
    requires Concat(chunks) == EventStream.Encode(events, stringify)
    ensures SendQuery(true, chunks, eol, parse) == Replay(View([], Streaming, None, false), events)
  {
    var blocks := FrameBlocks(events, stringify);
    assert Drain([], chunks) == blocks by {
      ChunkingIrrelevant(chunks);
      FeedFrames([], events, stringify, eol);
      assert [] + blocks == blocks;
      assert Trim([]) == [];
      assert Rest([]) == [];
    }
    ProcessFrames(View([], Streaming, None, false), events, stringify, parse, eol);
  }

  /** With lines ending at CR and LF only, the round trip needs no more than what
      `JSON.stringify` guarantees: no raw CR or LF in its output. */
  lemma CorrectedRoundTrip(events: seq<EventStream.Event>, stringify: Json -> string, parse: string -> Option<Json>,
                           chunks: seq<string>)
    requires AllOneLine(events, stringify, IsCrLf) && ParsesBack(events, stringify, parse)
    requires Concat(chunks) == EventStream.Encode(events, stringify)
    ensures SendQuery(true, chunks, IsCrLf, parse) == Replay(View([], Streaming, None, false), events)
  {
    CrLfSensible();
    RoundTrip(events, stringify, parse, chunks, IsCrLf);
  }

  lemma {:induction false} ReplaySnoc(v: View, events: seq<EventStream.Event>, e: EventStream.Event)
    ensures Replay(v, events + [e]) == Apply(Replay(v, events), EventStream.TypeName(e.kind), e.data)
    decreases |events|
  {
    if events == [] {
      assert events + [e] == [e];
    } else {
      assert (events + [e])[1..] == events[1..] + [e];
      ReplaySnoc(Apply(v, EventStream.TypeName(events[0].kind), events[0].data), events[1..], e);
    }
  }

  /** A stream whose last event is "done" leaves the query complete; one whose last
      event is "error" leaves it failed with that event's message (or the default). */
  lemma LastEventDecides(v: View, events: seq<EventStream.Event>)
    requires events != []
    ensures var last := events[|events| - 1];
            var r := Replay(v, events);
            (last.kind == EventStream.Done ==> r.state == Complete)
            && (last.kind == EventStream.Error ==>
                  r.state == Failed && r.error == Coalesce(Get(last.data, "message"), Some(JString(StreamErrorDefault))))
  {
    var last := events[|events| - 1];
    assert events == events[..|events| - 1] + [last];
    ReplaySnoc(v, events[..|events| - 1], last);
  }

  /** The line ends of the code cut a data line at U+2028, which `JSON.stringify`
      leaves unescaped inside strings: the data read back is not what was sent.
      Ending lines at CR and LF only reads it back whole. */
  lemma LineSeparatorCutsData()
    ensures var json := "\"a\U{2028}b\"";
            var block := EventStream.Block("status", json);
            ReadBlock(block, IsLineTerminator) == Some(("status", "\"a"))
            && ReadBlock(block, IsCrLf) == Some(("status", json))
  {
    SeparatorCuts();
    SeparatorKeptByCrLf();
  }

  lemma SeparatorCuts()
    ensures ReadBlock(EventStream.Block("status", "\"a\U{2028}b\""), IsLineTerminator) == Some(("status", "\"a"))
  {
    var json := "\"a\U{2028}b\"";
    var name := "status";
    LineTerminatorSensible();
    assert OneLine(name, IsLineTerminator);
    EventLineOfBlock(name, json, IsLineTerminator);
    assert json[0] == '"' && json[1] == 'a' && json[2] == '\U{2028}';
    assert !IsLineTerminator(json[0]) && !IsLineTerminator(json[1]) && IsLineTerminator(json[2]);
    DataLineOfBlock(name, json, IsLineTerminator, 2);
    assert json[..2] == "\"a";
    assert NoEdgeSpace(name);
    ReadBlockOf(EventStream.Block(name, json), IsLineTerminator, name, json[..2]);
  }

  /** A block whose event line and data line are found reads as that pair,
      the name taken as it stands when it has no edge space. */
  lemma ReadBlockOf(b: string, eol: LineEnds, name: string, data: string)
    requires FindLine(b, "event", eol, 0) == Some(name) && FindLine(b, "data", eol, 0) == Some(data)
    requires NoEdgeSpace(name)
    ensures ReadBlock(b, eol) == Some((name, data))
  {
    TrimOfTrimmed(name);
  }

  lemma SeparatorKeptByCrLf()
    ensures ReadBlock(EventStream.Block("status", "\"a\U{2028}b\""), IsCrLf) == Some(("status", "\"a\U{2028}b\""))
  {
    var json := "\"a\U{2028}b\"";
    var name := "status";
    CrLfSensible();
    assert OneLine(name, IsCrLf) && NoEdgeSpace(name);
    assert OneLine(json, IsCrLf);
    ReadFrameBlock(name, json, IsCrLf);
  }
}

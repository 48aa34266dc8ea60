/** The text pieces the header generators share: decimal rendering of
    integers, and the loop that lays out array elements on lines that wrap
    once they pass 80 characters. */
module HeaderText {

  // ---------------------------------------------------------------------------
  // f"{n}" for a Python int.

  function DigitChar(d: int): char
    requires 0 <= d < 10
  {
    ('0' as int + d) as char
  }

  function DigitValue(c: char): int
  {
    c as int - '0' as int
  }

  predicate IsDigits(s: string)
  {
    forall i :: 0 <= i < |s| ==> '0' <= s[i] <= '9'
  }

  /** The decimal digits of `n`, most significant first, no leading zero. */
  function NatToString(n: nat): (s: string)
    ensures |s| >= 1 && IsDigits(s)
    ensures |s| > 1 ==> s[0] != '0'
    decreases n
  {
    if n < 10 then [DigitChar(n)] else NatToString(n / 10) + [DigitChar(n % 10)]
  }

  /** Reading decimal digits back, the inverse of `NatToString`. */
  function ParseNat(s: string): int
  {
    if s == [] then 0 else ParseNat(s[..|s| - 1]) * 10 + DigitValue(s[|s| - 1])
  }

  lemma {:induction false} NatToStringRoundTrip(n: nat)
    ensures ParseNat(NatToString(n)) == n
    decreases n
  {
    var s := NatToString(n);
    if n >= 10 {
      NatToStringRoundTrip(n / 10);
      assert s[..|s| - 1] == NatToString(n / 10);
    }
  }

  /** `f"{n}"`: a minus sign for negative numbers, then the digits. */
  function IntToString(n: int): (s: string)
    ensures |s| >= 1
    ensures n >= 0 <==> s[0] != '-'
  {
    if n < 0 then "-" + NatToString(-n) else NatToString(n)
  }

  /** Reading an optionally signed decimal, the inverse of `IntToString`. */
  function ParseInt(s: string): int
  {
    if s != [] && s[0] == '-' then -ParseNat(s[1..]) else ParseNat(s)
  }

  /** Reading `IntToString` back gives the number again. */
  lemma IntToStringRoundTrip(n: int)
    ensures ParseInt(IntToString(n)) == n
  {
    if n < 0 {
      NatToStringRoundTrip(-n);
      assert IntToString(n)[1..] == NatToString(-n);
    } else {
      NatToStringRoundTrip(n);
    }
  }

  // ---------------------------------------------------------------------------
  // The wrapping loop.

  /** Lines may grow past this many characters and are cut right after. */
  const LineWidth: int := 80

  /** ", ".join(elems), built the way the loop builds a line: each element
      after the first follows a comma and a space. */
  function Join(elems: seq<string>): string
  {
    if |elems| == 0 then ""
    else if |elems| == 1 then elems[0]
    else Join(elems[..|elems| - 1]) + ", " + elems[|elems| - 1]
  }

  /** The element texts are never empty (every f"{x}" of a number has a digit). */
  predicate NoneEmpty(elems: seq<string>)
  {
    forall i :: 0 <= i < |elems| ==> elems[i] != ""
  }

  /** The lines emitted so far and the line under construction. */
  datatype WrapState = WrapState(emitted: seq<string>, line: string)

  /** One iteration of `for element in ...`: append the element, and emit
      the line with a trailing ", \n" once it is longer than 80. */
  function WrapStep(st: WrapState, e: string): WrapState
  {
    var line := if st.line == "" then e else st.line + ", " + e;
    if |line| > LineWidth then WrapState(st.emitted + [line + ", \n"], "")
    else WrapState(st.emitted, line)
  }

  function WrapLoop(st: WrapState, elems: seq<string>): WrapState
    decreases |elems|
  {
    if elems == [] then st else WrapLoop(WrapStep(st, elems[0]), elems[1..])
  }

  /** After the loop: a non-empty partial line is emitted with " \n". */
  function Finish(st: WrapState): seq<string>
  {
    if st.line != "" then st.emitted + [st.line + " \n"] else st.emitted
  }

  /** The body lines of one array initialiser. */
  function WrapLines(elems: seq<string>): seq<string>
  {
    Finish(WrapLoop(WrapState([], ""), elems))
  }

  // ---------------------------------------------------------------------------
  // The layout described without the loop: the elements are cut into chunks,
  // each the shortest prefix of what is left whose joined text is longer
  // than 80 characters, or all that is left.

  /** The least cut `r >= from` whose joined prefix is longer than 80, or the whole list. */
  function FirstCutFrom(elems: seq<string>, from: nat): (r: nat)
    requires 1 <= from <= |elems|
    ensures from <= r <= |elems|
    decreases |elems| - from
  {
    if from == |elems| || |Join(elems[..from])| > LineWidth then from
    else FirstCutFrom(elems, from + 1)
  }

  function FirstCut(elems: seq<string>): (r: nat)
    requires elems != []
    ensures 1 <= r <= |elems|
  {
    FirstCutFrom(elems, 1)
  }

  /** No shorter prefix than the cut passes 80 characters, and the cut does
      unless it takes everything. */
  predicate IsLeastCut(elems: seq<string>, r: nat)
    requires 1 <= r <= |elems|
  {
    && (forall j :: 1 <= j < r ==> |Join(elems[..j])| <= LineWidth)
    && (r < |elems| ==> |Join(elems[..r])| > LineWidth)
  }

  lemma {:induction false} FirstCutFromIsLeast(elems: seq<string>, from: nat)
    requires 1 <= from <= |elems|
    requires forall j :: 1 <= j < from ==> |Join(elems[..j])| <= LineWidth
    ensures IsLeastCut(elems, FirstCutFrom(elems, from))
    decreases |elems| - from
  {
    if !(from == |elems| || |Join(elems[..from])| > LineWidth) {
      FirstCutFromIsLeast(elems, from + 1);
    }
  }

  lemma FirstCutIsLeast(elems: seq<string>)
    requires elems != []
    ensures IsLeastCut(elems, FirstCut(elems))
  {
    FirstCutFromIsLeast(elems, 1);
  }

  function Chunks(elems: seq<string>): seq<seq<string>>
    decreases |elems|
  {
    if elems == [] then []
    else
      var k := FirstCut(elems);
      [elems[..k]] + Chunks(elems[k..])
  }

  /** A chunk's line: full chunks end in ", \n", the short last one in " \n". */
  function RenderChunk(chunk: seq<string>): string
  {
    Join(chunk) + (if |Join(chunk)| > LineWidth then ", \n" else " \n")
  }

  function Render(chunks: seq<seq<string>>): (lines: seq<string>)
    ensures |lines| == |chunks|
  {
    if chunks == [] then [] else [RenderChunk(chunks[0])] + Render(chunks[1..])
  }

  function Flatten(chunks: seq<seq<string>>): seq<string>
  {
    if chunks == [] then [] else chunks[0] + Flatten(chunks[1..])
  }

  /** A chunk that fits in 80 characters once its last element is dropped. */
  predicate Tight(chunk: seq<string>)
  {
    chunk != [] && |Join(chunk[..|chunk| - 1])| <= LineWidth
  }

  // ---------------------------------------------------------------------------
  // Lemmas.

  /** Joining a shorter prefix gives a shorter (or equal) text. */
  lemma {:induction false} JoinPrefixShorter(elems: seq<string>, j: nat)
    requires j <= |elems|
    ensures |Join(elems[..j])| <= |Join(elems)|
    decreases |elems|
  {
    if j < |elems| {
      assert elems[..|elems| - 1][..j] == elems[..j];
      JoinPrefixShorter(elems[..|elems| - 1], j);
    } else {
      assert elems[..j] == elems;
    }
  }

  lemma JoinEmpty(elems: seq<string>)
    requires NoneEmpty(elems)
    ensures Join(elems) == "" <==> elems == []
  {
    if |elems| > 1 {
      assert |Join(elems)| >= |elems[|elems| - 1]|;
    }
  }

  /** Appending an element to a joined line is what the loop does to `line`. */
  lemma JoinSnoc(cur: seq<string>, e: string)
    requires NoneEmpty(cur)
    ensures Join(cur + [e]) == (if Join(cur) == "" then e else Join(cur) + ", " + e)
  {
    JoinEmpty(cur);
    assert (cur + [e])[..|cur|] == cur;
  }

  /** A list whose join fits on a line is a single chunk. */
  lemma ShortIsOneChunk(cur: seq<string>)
    requires cur != [] && |Join(cur)| <= LineWidth
    ensures Chunks(cur) == [cur]
  {
    var k := FirstCut(cur);
    FirstCutIsLeast(cur);
    if k < |cur| {
      JoinPrefixShorter(cur, k);
      assert false;
    }
    assert cur[..k] == cur;
    assert cur[k..] == [];
  }

  /** When the joined text first passes 80 at `cur + [e]`, that is the first chunk. */
  lemma FirstChunkAt(cur: seq<string>, e: string, rest: seq<string>)
    requires |Join(cur)| <= LineWidth && |Join(cur + [e])| > LineWidth
    ensures Chunks(cur + [e] + rest) == [cur + [e]] + Chunks(rest)
  {
    var all := cur + [e] + rest;
    var k := FirstCut(all);
    FirstCutIsLeast(all);
    assert all[..|cur| + 1] == cur + [e];
    if k <= |cur| {
      assert all[..k] == cur[..k];
      JoinPrefixShorter(cur, k);
      assert false;
    }
    if k > |cur| + 1 {
      assert false;
    }
    assert all[k..] == rest;
  }

  /** The loop, started with `done` emitted and the elements `cur` on the
      current line, ends with `done` followed by the rendered chunks of
      everything still to be laid out. */
  lemma {:induction false} WrapLoopRendersChunks(done: seq<string>, cur: seq<string>, rest: seq<string>)
    requires NoneEmpty(cur) && NoneEmpty(rest)
    requires |Join(cur)| <= LineWidth
    ensures Finish(WrapLoop(WrapState(done, Join(cur)), rest)) == done + Render(Chunks(cur + rest))
    decreases |rest|
  {
    if rest == [] {
      LastStep(done, cur);
    } else {
      TailNoneEmpty(rest);
      var line := Join(cur + [rest[0]]);
      if |line| > LineWidth {
        assert Join([]) == "";
        WrapLoopRendersChunks(done + [line + ", \n"], [], rest[1..]);
        EmitStep(done, cur, rest);
      } else {
        SnocNoneEmpty(cur, rest[0]);
        WrapLoopRendersChunks(done, cur + [rest[0]], rest[1..]);
        KeepStep(done, cur, rest);
      }
    }
  }

  lemma TailNoneEmpty(rest: seq<string>)
    requires rest != [] && NoneEmpty(rest)
    ensures NoneEmpty(rest[1..])
  {
    forall i | 0 <= i < |rest| - 1 ensures rest[1..][i] != "" {
      assert rest[1..][i] == rest[i + 1];
    }
  }

  lemma SnocNoneEmpty(cur: seq<string>, e: string)
    requires NoneEmpty(cur) && e != ""
    ensures NoneEmpty(cur + [e])
  {
  }

  /** Nothing left: the open line, if any, is the last chunk. */
  lemma LastStep(done: seq<string>, cur: seq<string>)
    requires NoneEmpty(cur) && |Join(cur)| <= LineWidth
    ensures Finish(WrapLoop(WrapState(done, Join(cur)), [])) == done + Render(Chunks(cur + []))
  {
    assert cur + [] == cur;
    JoinEmpty(cur);
    if cur != [] {
      ShortIsOneChunk(cur);
    }
  }

  /** A step that emits the line: the first chunk is complete. */
  lemma EmitStep(done: seq<string>, cur: seq<string>, rest: seq<string>)
    requires NoneEmpty(cur) && rest != []
    requires |Join(cur)| <= LineWidth && |Join(cur + [rest[0]])| > LineWidth
    requires Finish(WrapLoop(WrapState(done + [Join(cur + [rest[0]]) + ", \n"], Join([])), rest[1..]))
             == done + [Join(cur + [rest[0]]) + ", \n"] + Render(Chunks([] + rest[1..]))
    ensures Finish(WrapLoop(WrapState(done, Join(cur)), rest)) == done + Render(Chunks(cur + rest))
  {
    var e := rest[0];
    var rest' := rest[1..];
    var emitted := Join(cur + [e]) + ", \n";
    var tail := Render(Chunks(rest'));
    var st := WrapState(done, Join(cur));
    assert Finish(WrapLoop(st, rest)) == done + [emitted] + tail by {
      JoinSnoc(cur, e);
      assert WrapStep(st, e) == WrapState(done + [emitted], Join([]));
      EmptyConcat(rest');
    }
    assert Render(Chunks(cur + rest)) == [emitted] + tail by {
      SplitFirst(cur, rest);
      FirstChunkAt(cur, e, rest');
      RenderCons(cur + [e], Chunks(rest'));
    }
    ConcatAssoc(done, [emitted], tail);
  }

  /** `cur + rest` seen one element further on. */
  lemma SplitFirst<T>(cur: seq<T>, rest: seq<T>)
    requires rest != []
    ensures cur + rest == cur + [rest[0]] + rest[1..]
  {
    assert rest == [rest[0]] + rest[1..];
    ConcatAssoc(cur, [rest[0]], rest[1..]);
  }

  lemma EmptyConcat<T>(s: seq<T>)
    ensures [] + s == s
  {
  }

  lemma ConcatAssoc<T>(a: seq<T>, b: seq<T>, c: seq<T>)
    ensures a + b + c == a + (b + c)
  {
  }

  /** A step that keeps the line open: the element joins the current chunk. */
  lemma KeepStep(done: seq<string>, cur: seq<string>, rest: seq<string>)
    requires NoneEmpty(cur) && rest != []
    requires |Join(cur + [rest[0]])| <= LineWidth
    requires Finish(WrapLoop(WrapState(done, Join(cur + [rest[0]])), rest[1..]))
             == done + Render(Chunks(cur + [rest[0]] + rest[1..]))
    ensures Finish(WrapLoop(WrapState(done, Join(cur)), rest)) == done + Render(Chunks(cur + rest))
  {
    SplitFirst(cur, rest);
    JoinSnoc(cur, rest[0]);
    var st := WrapState(done, Join(cur));
    assert WrapStep(st, rest[0]) == WrapState(done, Join(cur + [rest[0]]));
  }

  lemma RenderCons(c: seq<string>, cs: seq<seq<string>>)
    ensures Render([c] + cs) == [RenderChunk(c)] + Render(cs)
  {
    assert ([c] + cs)[1..] == cs;
  }

  /** Line `i` of the rendering is chunk `i` rendered. */
  lemma {:induction false} RenderAt(chunks: seq<seq<string>>)
    ensures forall i :: 0 <= i < |chunks| ==> Render(chunks)[i] == RenderChunk(chunks[i])
  {
    if chunks != [] {
      RenderAt(chunks[1..]);
    }
  }

  /** The wrapping loop emits exactly the rendered chunks. */
  lemma WrapLinesAreChunks(elems: seq<string>)
    requires NoneEmpty(elems)
    ensures WrapLines(elems) == Render(Chunks(elems))
  {
    assert Join([]) == "";
    WrapLoopRendersChunks([], [], elems);
    assert [] + elems == elems;
  }

  /** The chunks hold the elements in order, none is empty, every chunk but
      the last is longer than 80 characters, and no chunk is longer than 80
      without its last element. */
  lemma {:induction false} ChunksLayout(elems: seq<string>)
    ensures Flatten(Chunks(elems)) == elems
    ensures forall i :: 0 <= i < |Chunks(elems)| - 1 ==> |Join(Chunks(elems)[i])| > LineWidth
    ensures forall i :: 0 <= i < |Chunks(elems)| ==> Tight(Chunks(elems)[i])
    decreases |elems|
  {
    if elems != [] {
      var k := FirstCut(elems);
      FirstCutIsLeast(elems);
      var rest := elems[k..];
      ChunksLayout(rest);
      assert elems[..k] + rest == elems;
      var cs := Chunks(elems);
      assert cs == [elems[..k]] + Chunks(rest);
      assert cs[1..] == Chunks(rest);
      assert elems[..k][..k - 1] == elems[..k - 1];
      if k - 1 >= 1 {
        assert |Join(elems[..k - 1])| <= LineWidth;
      }
      if |cs| > 1 {
        assert rest != [];
        assert |Join(elems[..k])| > LineWidth;
      }
      forall i | 1 <= i < |cs|
        ensures cs[i] == Chunks(rest)[i - 1]
      {
      }
    }
  }

  /** The layout of one wrapped array: the emitted lines are the chunks,
      joined with ", ", in order; the chunks together are the elements. */
  lemma WrapLayout(elems: seq<string>)
    requires NoneEmpty(elems)
    ensures |WrapLines(elems)| == |Chunks(elems)|
    ensures Flatten(Chunks(elems)) == elems
    ensures forall i :: 0 <= i < |Chunks(elems)| - 1 ==>
              WrapLines(elems)[i] == Join(Chunks(elems)[i]) + ", \n" && |Join(Chunks(elems)[i])| > LineWidth
    ensures forall i :: 0 <= i < |Chunks(elems)| ==> Tight(Chunks(elems)[i])
    ensures |Chunks(elems)| > 0 ==> WrapLines(elems)[|Chunks(elems)| - 1] == RenderChunk(Chunks(elems)[|Chunks(elems)| - 1])
    ensures elems == [] <==> WrapLines(elems) == []
  {
    WrapLinesAreChunks(elems);
    ChunksLayout(elems);
    RenderAt(Chunks(elems));
    if elems != [] {
      assert |Chunks(elems)| >= 1;
    }
  }
}

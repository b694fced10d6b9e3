/** Splitting a long chat message into chunks, on UTF-16 code units. */
module SplitMessage {
  type Unit = u: int | 0 <= u < 65536

  type Text = seq<Unit>

  const NEWLINE: Unit := 10
  const SPACE: Unit := 32

  /** What `trimStart` strips: ECMAScript white space and line terminators. */
  predicate White(u: Unit) {
    9 <= u <= 13 || u == 32 || u == 0xA0 || u == 0x1680 || 0x2000 <= u <= 0x200A
    || u in {0x2028, 0x2029, 0x202F, 0x205F, 0x3000, 0xFEFF}
  }

  predicate AllWhite(t: Text) {
    forall u <- t :: White(u)
  }

  // ---------- Where a chunk ends ----------

  /** The last index up to `from` that holds `u`, or -1. */
  function LastIndex(t: Text, u: Unit, from: int): (k: int)
    requires -1 <= from < |t|
    ensures -1 <= k <= from
    decreases from
  {
    if from < 0 || t[from] == u then from else LastIndex(t, u, from - 1)
  }

  lemma {:induction false} LastIndexIsLast(t: Text, u: Unit, from: int)
    requires -1 <= from < |t|
    ensures var k := LastIndex(t, u, from); (k >= 0 ==> t[k] == u) && forall i | k < i <= from :: t[i] != u
    decreases from
  {
    if from >= 0 && t[from] != u {
      LastIndexIsLast(t, u, from - 1);
    }
  }

  /** A line break in the second half, else a space after the first 30 percent, else a hard cut. */
  function SplitPoint(t: Text, max: nat): (k: int)
    requires 1 <= max < |t|
    ensures 1 <= k <= max && 10 * k >= 3 * max
  {
    var newline := LastIndex(t, NEWLINE, max);
    var first := if 2 * newline < max then LastIndex(t, SPACE, max) else newline;
    if 10 * first < 3 * max then max else first
  }

  /** The choice in terms of the text alone. */
  lemma SplitPointChoice(t: Text, max: nat)
    requires 1 <= max < |t|
    ensures var k := SplitPoint(t, max);
      && ((exists i :: 0 <= i <= max && 2 * i >= max && t[i] == NEWLINE) ==>
            t[k] == NEWLINE && forall i | k < i <= max :: t[i] != NEWLINE)
      && ((forall i | 0 <= i <= max && 2 * i >= max :: t[i] != NEWLINE) ==>
            if exists i :: 0 <= i <= max && 10 * i >= 3 * max && t[i] == SPACE
            then t[k] == SPACE && forall i | k < i <= max :: t[i] != SPACE
            else k == max)
  {
    LastIndexIsLast(t, NEWLINE, max);
    LastIndexIsLast(t, SPACE, max);
  }

  function TrimStart(t: Text): (rest: Text)
    ensures |rest| <= |t| && rest == t[|t| - |rest|..] && AllWhite(t[..|t| - |rest|])
    ensures rest == [] || !White(rest[0])
  {
    if t == [] || !White(t[0]) then t
    else
      var rest := TrimStart(t[1..]);
      assert t[..|t| - |rest|] == [t[0]] + t[1..][..|t[1..]| - |rest|];
      rest
  }

  // ---------- The chunks ----------

  /** The chunks of a non-empty remainder. */
  function Chunks(t: Text, max: nat): (chunks: seq<Text>)
    requires max >= 1
    decreases |t|
  {
    if t == [] then []
    else if |t| <= max then [t]
    else
      [t[..SplitPoint(t, max)]] + Chunks(Rest(t, max), max)
  }

  /** What is left after the first chunk. */
  function Rest(t: Text, max: nat): (rest: Text)
    requires 1 <= max < |t|
    ensures |rest| < |t|
  {
    TrimStart(t[SplitPoint(t, max)..])
  }

  lemma FirstChunk(t: Text, max: nat)
    requires 1 <= max < |t|
    ensures Chunks(t, max) == [t[..SplitPoint(t, max)]] + Chunks(Rest(t, max), max)
  {
  }

  lemma ChunksUnfold(before: seq<Text>, t: Text, max: nat)
    requires 1 <= max < |t|
    ensures before + Chunks(t, max) == before + [t[..SplitPoint(t, max)]] + Chunks(Rest(t, max), max)
  {
    FirstChunk(t, max);
    Regroup(before, [t[..SplitPoint(t, max)]], Chunks(Rest(t, max), max));
  }

  lemma Regroup(a: seq<Text>, b: seq<Text>, c: seq<Text>)
    ensures a + (b + c) == a + b + c
  {
  }

  /** `splitMessage`: text that fits, the empty text included, is one chunk. */
  function Split(t: Text, max: nat): seq<Text>
    requires max >= 1
  {
    if |t| <= max then [t] else Chunks(t, max)
  }

  method FindLast(t: Text, u: Unit, from: nat) returns (k: int)
    requires from < |t|
    ensures k == LastIndex(t, u, from)
  {
    k := from;
    while k >= 0 && t[k] != u
      invariant -1 <= k <= from && LastIndex(t, u, from) == LastIndex(t, u, k)
    {
      k := k - 1;
    }
  }

  method SplitText(text: Text, max: nat) returns (chunks: seq<Text>)
    requires max >= 1
    ensures chunks == Split(text, max)
  {
    if |text| <= max {
      return [text];
    }
    chunks := [];
    var remaining := text;
    ghost var all := Chunks(text, max);
    while |remaining| > 0
      invariant chunks + Chunks(remaining, max) == all
      decreases |remaining|
    {
      if |remaining| <= max {
        chunks := chunks + [remaining];
        break;
      }
      var splitAt := FindLast(remaining, NEWLINE, max);
      if 2 * splitAt < max {
        splitAt := FindLast(remaining, SPACE, max);
      }
      if 10 * splitAt < 3 * max {
        splitAt := max;
      }
      assert splitAt == SplitPoint(remaining, max);
      ChunksUnfold(chunks, remaining, max);
      chunks := chunks + [remaining[..splitAt]];
      remaining := TrimStart(remaining[splitAt..]);
    }
    assert chunks + [] == chunks;
  }

  // ---------- What splitting keeps ----------

  /** What was trimmed after each chunk. */
  function Gaps(t: Text, max: nat): (gaps: seq<Text>)
    requires max >= 1
    decreases |t|
  {
    if t == [] then []
    else if |t| <= max then [[]]
    else
      [t[SplitPoint(t, max)..|t| - |Rest(t, max)|]] + Gaps(Rest(t, max), max)
  }

  function Interleave(chunks: seq<Text>, gaps: seq<Text>): Text
    requires |chunks| == |gaps|
  {
    if chunks == [] then [] else chunks[0] + gaps[0] + Interleave(chunks[1..], gaps[1..])
  }

  /** The text is its chunks in order, with nothing but white space between and after them. */
  lemma {:induction false} ChunksCoverText(t: Text, max: nat)
    requires max >= 1
    ensures |Chunks(t, max)| == |Gaps(t, max)|
    ensures t == Interleave(Chunks(t, max), Gaps(t, max))
    ensures forall gap <- Gaps(t, max) :: AllWhite(gap)
    decreases |t|
  {
    if t != [] && |t| <= max {
      assert Interleave([t], [[]]) == t + [] + Interleave([], []);
    } else if t != [] {
      var k, rest := SplitPoint(t, max), Rest(t, max);
      ChunksCoverText(rest, max);
      GapIsWhite(t, max);
      InterleaveCons(t[..k], t[k..|t| - |rest|], Chunks(rest, max), Gaps(rest, max));
    }
  }

  lemma GapIsWhite(t: Text, max: nat)
    requires 1 <= max < |t|
    ensures var k, rest := SplitPoint(t, max), Rest(t, max);
      var gap := t[k..|t| - |rest|];
      AllWhite(gap) && t == t[..k] + gap + rest
  {
    var k, rest := SplitPoint(t, max), Rest(t, max);
    CutTwice(t, k, |t| - k - |rest|);
  }

  lemma CutTwice(t: Text, k: nat, n: nat)
    requires k + n <= |t|
    ensures t == t[..k] + t[k..k + n] + t[k + n..]
    ensures t[k..k + n] == t[k..][..n] && t[k..][n..] == t[k + n..]
  {
  }

  lemma InterleaveCons(chunk: Text, gap: Text, chunks: seq<Text>, gaps: seq<Text>)
    requires |chunks| == |gaps|
    ensures Interleave([chunk] + chunks, [gap] + gaps) == chunk + gap + Interleave(chunks, gaps)
  {
    assert ([chunk] + chunks)[1..] == chunks && ([gap] + gaps)[1..] == gaps;
  }

  /** Every chunk fits, and every chunk but the last has at least 30 percent of the limit. */
  predicate WellSized(chunks: seq<Text>, max: nat) {
    && (forall c <- chunks :: 0 < |c| <= max)
    && forall i | 0 <= i < |chunks| - 1 :: 10 * |chunks[i]| >= 3 * max
  }

  lemma WellSizedCons(chunk: Text, chunks: seq<Text>, max: nat)
    requires WellSized(chunks, max) && 0 < |chunk| <= max && 10 * |chunk| >= 3 * max
    ensures WellSized([chunk] + chunks, max)
  {
    var all := [chunk] + chunks;
    forall i | 0 <= i < |all| - 1 ensures 10 * |all[i]| >= 3 * max {
      if i > 0 {
        assert all[i] == chunks[i - 1];
      }
    }
  }

  lemma {:induction false} ChunkSizes(t: Text, max: nat)
    requires max >= 1
    ensures WellSized(Chunks(t, max), max)
    decreases |t|
  {
    if |t| > max {
      ChunkSizes(Rest(t, max), max);
      FirstChunk(t, max);
      WellSizedCons(t[..SplitPoint(t, max)], Chunks(Rest(t, max), max), max);
    }
  }

  /** So there are not too many of them. */
  lemma {:induction false} ChunkCount(t: Text, max: nat)
    requires max >= 1
    ensures Times(|Chunks(t, max)| - 1, 3 * max) <= 10 * |t|
    decreases |t|
  {
    if |t| > max {
      var rest := Rest(t, max);
      ChunkCount(rest, max);
      OneMore(|Chunks(rest, max)| - 1, 3 * max);
      assert |rest| <= |t| - SplitPoint(t, max);
    }
  }

  function Times(n: int, m: int): int {
    n * m
  }

  lemma OneMore(n: int, m: int)
    ensures Times(n + 1, m) == Times(n, m) + m
  {
  }

  /** The non-white units, in order. */
  function Ink(t: Text): Text {
    if t == [] then [] else (if White(t[0]) then [] else [t[0]]) + Ink(t[1..])
  }

  function InkOfAll(chunks: seq<Text>): Text {
    if chunks == [] then [] else Ink(chunks[0]) + InkOfAll(chunks[1..])
  }

  lemma {:induction false} InkConcat(a: Text, b: Text)
    ensures Ink(a + b) == Ink(a) + Ink(b)
  {
    if a == [] {
      assert a + b == b;
    } else {
      assert (a + b)[1..] == a[1..] + b;
      InkConcat(a[1..], b);
    }
  }

  lemma {:induction false} WhiteHasNoInk(t: Text)
    requires AllWhite(t)
    ensures Ink(t) == []
  {
    if t != [] {
      WhiteHasNoInk(t[1..]);
    }
  }

  lemma {:induction false} InterleavedInk(chunks: seq<Text>, gaps: seq<Text>)
    requires |chunks| == |gaps| && forall gap <- gaps :: AllWhite(gap)
    ensures Ink(Interleave(chunks, gaps)) == InkOfAll(chunks)
    decreases |chunks|
  {
    if chunks != [] {
      var rest := Interleave(chunks[1..], gaps[1..]);
      assert gaps[0] in gaps;
      InterleavedInk(chunks[1..], gaps[1..]);
      InkConcat(chunks[0] + gaps[0], rest);
      InkConcat(chunks[0], gaps[0]);
      WhiteHasNoInk(gaps[0]);
    }
  }

  /** No non-white unit is lost, repeated or moved; chunks fit; and there are not too many of them. */
  lemma SplitKeepsText(t: Text, max: nat)
    requires max >= 1
    ensures InkOfAll(Split(t, max)) == Ink(t)
    ensures Split(t, max) != [] && forall c <- Split(t, max) :: |c| <= max
    ensures t != [] ==> WellSized(Split(t, max), max)
    ensures (|Split(t, max)| - 1) * (3 * max) <= 10 * |t|
  {
    if |t| <= max {
      assert InkOfAll([t]) == Ink(t) + InkOfAll([]);
    } else {
      ChunksCoverText(t, max);
      InterleavedInk(Chunks(t, max), Gaps(t, max));
      ChunkSizes(t, max);
      ChunkCount(t, max);
    }
  }

  // ---------- One cut at a time ----------

  /** `k` is the last position up to the limit that holds `u`. */
  predicate LastAt(t: Text, u: Unit, k: int, max: nat)
    requires 0 <= k <= max < |t|
  {
    t[k] == u && forall i | k < i <= max :: t[i] != u
  }

  /** Where a text over the limit is cut: by line breaks first, then by spaces, then at the limit. */
  predicate CutAt(t: Text, max: nat, k: int)
    requires 1 <= max < |t|
  {
    && 0 < k <= max
    && if exists i | 0 <= i <= max && 2 * i >= max :: t[i] == NEWLINE then LastAt(t, NEWLINE, k, max)
       else if exists i | 0 <= i <= max && 10 * i >= 3 * max :: t[i] == SPACE then LastAt(t, SPACE, k, max)
       else k == max
  }

  /**
    A text that fits is left alone. Any other is cut once, the white space after the cut goes and no
    more, and the rest is split in the same way.
   */
  lemma SplitsOnce(t: Text, max: nat) returns (k: nat, rest: Text)
    requires max >= 1
    ensures |t| <= max ==> Split(t, max) == [t]
    ensures |t| > max ==>
      && CutAt(t, max, k) && k + |rest| <= |t| && AllWhite(t[k..|t| - |rest|]) && rest == t[|t| - |rest|..]
      && (rest == [] || !White(rest[0]))
      && Split(t, max) == [t[..k]] + (if rest == [] then [] else Split(rest, max))
  {
    k, rest := 0, [];
    if |t| > max {
      k, rest := SplitPoint(t, max), Rest(t, max);
      SplitPointChoice(t, max);
      FirstChunk(t, max);
      GapIsWhite(t, max);
      RestIsSuffix(t, k, rest);
    }
  }

  lemma RestIsSuffix(t: Text, k: nat, rest: Text)
    requires k + |rest| <= |t| && t == t[..k] + t[k..|t| - |rest|] + rest
    ensures rest == t[|t| - |rest|..]
  {
  }

  /** From the given one on, every chunk starts with a unit that is not white. */
  predicate InkLed(chunks: seq<Text>, from: nat) {
    forall i | from <= i < |chunks| :: chunks[i] != [] && !White(chunks[i][0])
  }

  lemma InkLedCons(chunk: Text, chunks: seq<Text>)
    requires InkLed(chunks, 1) && (chunks != [] ==> chunks[0] != [] && !White(chunks[0][0]))
    ensures InkLed([chunk] + chunks, 1)
  {
    var all := [chunk] + chunks;
    forall i | 1 <= i < |all| ensures all[i] != [] && !White(all[i][0]) {
      assert all[i] == chunks[i - 1];
    }
  }

  /** Every chunk after the first starts with a unit that is not white. */
  lemma {:induction false} LaterChunksStartWithInk(t: Text, max: nat)
    requires max >= 1
    ensures InkLed(Split(t, max), 1)
    decreases |t|
  {
    var k, rest := SplitsOnce(t, max);
    if |t| > max {
      if rest == [] {
        InkLedCons(t[..k], []);
      } else {
        LaterChunksStartWithInk(rest, max);
        StartsWithText(rest, max);
        InkLedCons(t[..k], Split(rest, max));
      }
    }
  }

  lemma StartsWithText(t: Text, max: nat)
    requires max >= 1 && t != []
    ensures Split(t, max) != [] && Split(t, max)[0] != [] && Split(t, max)[0][0] == t[0]
  {
    var k, rest := SplitsOnce(t, max);
  }
}

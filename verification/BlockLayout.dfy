/**
  How a window of slots is laid out over fixed-size blocks, on values: what both the deque and its concurrent push
  protocol rely on. With blocks of `b` slots, the first block begins at the multiple of `b` at or below the window's
  start, its base.
 */
module BlockLayout {
  import opened Wrappers

  /** `n` blocks' worth of slots. */
  function Times(n: nat, b: nat): nat {
    if n == 0 then 0 else Times(n - 1, b) + b
  }

  /** Where the first block begins. */
  function Base(b: nat, start: nat): (base: nat)
    requires b > 0
    ensures base <= start < base + b
  {
    if start < b then 0 else Base(b, start - b) + b
  }

  /** The slot stored at offset `o` of block `j`. */
  function Position(b: nat, base: nat, j: nat, o: nat): nat {
    base + Times(j, b) + o
  }

  /** The first position beyond the allocated blocks. */
  function Top(b: nat, base: nat, blocks: nat): nat {
    base + Times(blocks, b)
  }

  /** What slot `n` holds when the window `items` begins at `start`; everything outside the window is cleared. */
  function SlotOf<T>(start: nat, items: seq<Option<T>>, n: nat): Option<T> {
    if start <= n < start + |items| then items[n - start] else None
  }

  ghost predicate Laid<T>(cells: seq<seq<Option<T>>>, b: nat, base: nat, start: nat, items: seq<Option<T>>) {
    && (forall j :: 0 <= j < |cells| ==> |cells[j]| == b)
    && (forall j, o {:trigger cells[j][o]} :: 0 <= j < |cells| && 0 <= o < b ==>
          cells[j][o] == SlotOf(start, items, Position(b, base, j, o)))
  }

  function Empty<T>(b: nat): (block: seq<Option<T>>)
    ensures |block| == b
  {
    seq(b, _ => None)
  }

  /** A block with the offsets from `lo` up to `hi` cleared. */
  function Cleared<T>(block: seq<Option<T>>, lo: nat, hi: nat): (r: seq<Option<T>>)
    ensures |r| == |block|
  {
    seq(|block|, o requires 0 <= o < |block| => if lo <= o < hi then None else block[o])
  }

  // ---------------------------------------------------------------- arithmetic

  lemma {:induction false} TimesIsProduct(n: nat, b: nat)
    ensures Times(n, b) == n * b
  {
    if n > 0 {
      TimesIsProduct(n - 1, b);
      assert n * b == (n - 1) * b + b;
    }
  }

  lemma {:induction false} TimesSum(m: nat, n: nat, b: nat)
    ensures Times(m + n, b) == Times(m, b) + Times(n, b)
  {
    if n > 0 {
      TimesSum(m, n - 1, b);
    }
  }

  lemma TimesStep(m: nat, n: nat, b: nat)
    requires m < n
    ensures Times(m, b) + b <= Times(n, b)
  {
    TimesSum(m, n - m, b);
  }

  /** Dividing undoes counting in blocks. */
  lemma DivUnique(q: nat, o: nat, b: nat)
    requires o < b
    ensures (Times(q, b) + o) / b == q && (Times(q, b) + o) % b == o
  {
    var n := Times(q, b) + o;
    Quotient(n, b);
    var d := n / b;
    if d < q {
      TimesStep(d, q, b);
    } else if d > q {
      TimesStep(q, d, b);
    }
  }

  lemma {:induction false} BaseOfTimes(q: nat, o: nat, b: nat)
    requires o < b
    ensures Base(b, Times(q, b) + o) == Times(q, b)
  {
    if q > 0 {
      BaseOfTimes(q - 1, o, b);
    }
  }

  lemma Quotient(n: nat, b: nat)
    requires b > 0
    ensures n == Times(n / b, b) + n % b && n % b < b
    ensures Base(b, n) == Times(n / b, b) == n - n % b
  {
    TimesIsProduct(n / b, b);
    BaseOfTimes(n / b, n % b, b);
  }

  /** Index `i` lies in block i/b - start/b at offset i%b, and that block exists exactly when `i` is below the top. */
  lemma Locate(b: nat, start: nat, i: nat, blocks: nat)
    requires b > 0 && start <= i
    ensures i / b >= start / b
    ensures Position(b, Base(b, start), i / b - start / b, i % b) == i
    ensures i / b - start / b < blocks <==> i < Top(b, Base(b, start), blocks)
  {
    Quotient(start, b);
    Quotient(i, b);
    if i / b < start / b {
      TimesStep(i / b, start / b, b);
    }
    var j := i / b - start / b;
    TimesSum(start / b, j, b);
    if j < blocks {
      TimesStep(j, blocks, b);
    } else if blocks < j {
      TimesStep(blocks, j, b);
    }
  }

  lemma PositionInjective(b: nat, base: nat, j: nat, o: nat, j': nat, o': nat)
    requires o < b && o' < b && Position(b, base, j, o) == Position(b, base, j', o')
    ensures j == j' && o == o'
  {
    if j < j' {
      TimesStep(j, j', b);
    } else if j' < j {
      TimesStep(j', j, b);
    }
  }

  lemma PositionBelowTop(b: nat, base: nat, j: nat, o: nat, blocks: nat)
    requires o < b
    ensures j < blocks <==> Position(b, base, j, o) < Top(b, base, blocks)
  {
    if j < blocks {
      TimesStep(j, blocks, b);
    } else if blocks < j {
      TimesStep(blocks, j, b);
    }
  }

  /** The block count that a window needs, floor and ceiling spelled out. */
  lemma BlockCount(b: nat, start: nat, end: nat, blocks: nat)
    requires b > 0 && start <= end
    ensures end <= Top(b, Base(b, start), blocks) < end + b <==> blocks == (end + b - 1) / b - start / b
  {
    Quotient(start, b);
    Quotient(end + b - 1, b);
    Reaches(b, start / b, blocks, end, (end + b - 1) / b, (end + b - 1) % b);
  }

  /** Counting in blocks from block `q` on, the end lies in the last one exactly if that is the last block needed. */
  lemma Reaches(b: nat, q: nat, blocks: nat, end: nat, c: nat, o: nat)
    requires o < b && end + b - 1 == Times(c, b) + o
    ensures end <= Times(q, b) + Times(blocks, b) < end + b <==> q + blocks == c
  {
    TimesSum(q, blocks, b);
    if q + blocks < c {
      TimesStep(q + blocks, c, b);
    } else if c < q + blocks {
      TimesStep(c, q + blocks, b);
    }
  }

  // ---------------------------------------------------------------- changing the layout

  /** Writing slot `i` changes that slot of the window and no other. */
  lemma WriteLaid<T>(cells: seq<seq<Option<T>>>, b: nat, base: nat, start: nat, items: seq<Option<T>>,
                     j: nat, o: nat, x: Option<T>)
    requires Laid(cells, b, base, start, items) && j < |cells| && o < b
    requires start <= Position(b, base, j, o) < start + |items|
    ensures Laid(cells[j := cells[j][o := x]], b, base, start, items[Position(b, base, j, o) - start := x])
  {
    var after := cells[j := cells[j][o := x]];
    var items' := items[Position(b, base, j, o) - start := x];
    forall j', o' | 0 <= j' < |cells| && 0 <= o' < b
      ensures after[j'][o'] == SlotOf(start, items', Position(b, base, j', o'))
    {
      assert cells[j'][o'] == SlotOf(start, items, Position(b, base, j', o'));
      if Position(b, base, j', o') == Position(b, base, j, o) {
        PositionInjective(b, base, j, o, j', o');
      }
    }
  }

  /** Reserving a slot writes nothing. */
  lemma ReserveLaid<T>(cells: seq<seq<Option<T>>>, b: nat, base: nat, start: nat, items: seq<Option<T>>)
    requires Laid(cells, b, base, start, items)
    ensures Laid(cells, b, base, start, items + [None])
  {
    assert forall n: nat :: SlotOf(start, items + [None], n) == SlotOf(start, items, n);
  }

  /** No slot at or beyond `top` is filled. */
  ghost predicate FilledBelow<T>(top: nat, start: nat, items: seq<Option<T>>) {
    forall n: nat :: SlotOf(start, items, n).Some? ==> n < top
  }

  lemma AllocateLaid<T>(cells: seq<seq<Option<T>>>, b: nat, base: nat, start: nat, items: seq<Option<T>>)
    requires Laid(cells, b, base, start, items)
    requires FilledBelow(Top(b, base, |cells|), start, items)
    ensures Laid(cells + [Empty(b)], b, base, start, items)
  {
    var after := cells + [Empty(b)];
    forall j, o | 0 <= j < |after| && 0 <= o < b
      ensures after[j][o] == SlotOf(start, items, Position(b, base, j, o))
    {
      PositionBelowTop(b, base, j, o, |cells|);
      if j < |cells| {
        assert cells[j][o] == SlotOf(start, items, Position(b, base, j, o));
      }
    }
  }

  // ---------------------------------------------------------------- removing the front

  /** Removing `d` whole blocks moves the base, not the top. */
  lemma NewBase(b: nat, start: nat, blocks: nat, idx: nat, d: nat, i: nat)
    requires b > 0 && d <= blocks && i < b && idx == Top(b, Base(b, start), d) + i
    ensures Base(b, idx) == Top(b, Base(b, start), d) && idx % b == i
    ensures Top(b, Base(b, idx), blocks - d) == Top(b, Base(b, start), blocks)
  {
    Quotient(start, b);
    TimesSum(start / b, d, b);
    DivUnique(start / b + d, i, b);
    TimesSum(d, blocks - d, b);
  }

  /** A slot that survives keeps its place; the ones below `idx` are in the first block, before offset `i`. */
  lemma DropSlot<T>(cells: seq<seq<Option<T>>>, b: nat, base: nat, start: nat, items: seq<Option<T>>,
                    idx: nat, d: nat, i: nat, j: nat, o: nat)
    requires Laid(cells, b, base, start, items) && start <= idx <= start + |items|
    requires d + j < |cells| && o < b && i < b && idx == Top(b, base, d) + i
    ensures var n := Position(b, Top(b, base, d), j, o);
            && (n < idx <==> j == 0 && o < i)
            && (n >= idx ==> cells[d..][j][o] == SlotOf(idx, items[idx - start..], n))
  {
    var n := Position(b, Top(b, base, d), j, o);
    TimesSum(d, j, b);
    assert cells[d + j][o] == SlotOf(start, items, Position(b, base, d + j, o));
    if j > 0 {
      TimesStep(0, j, b);
    }
  }

  lemma RemovedWhole<T>(cells: seq<seq<Option<T>>>, b: nat, base: nat, start: nat, items: seq<Option<T>>,
                        idx: nat, d: nat, base': nat)
    requires b > 0 && Laid(cells, b, base, start, items) && start <= idx <= start + |items|
    requires d <= |cells| && idx == base' == Top(b, base, d)
    ensures Laid(cells[d..], b, base', idx, items[idx - start..])
  {
    forall j, o | 0 <= j < |cells[d..]| && 0 <= o < b
      ensures cells[d..][j][o] == SlotOf(idx, items[idx - start..], Position(b, base', j, o))
    {
      DropSlot(cells, b, base, start, items, idx, d, 0, j, o);
    }
  }

  lemma RemovedPartly<T>(cells: seq<seq<Option<T>>>, b: nat, base: nat, start: nat, items: seq<Option<T>>,
                         idx: nat, d: nat, i: nat, from: nat, base': nat, rest: seq<seq<Option<T>>>)
    requires Laid(cells, b, base, start, items) && base <= start <= idx <= start + |items|
    requires d < |cells| && rest == cells[d..] && i < b && idx == base' + i && base' == Top(b, base, d)
    requires from == if d == 0 then start - base else 0
    ensures from <= i
    ensures Laid([Cleared(rest[0], from, i)] + rest[1..], b, base', idx, items[idx - start..])
  {
    var after := [Cleared(rest[0], from, i)] + rest[1..];
    forall j, o | 0 <= j < |after| && 0 <= o < b
      ensures after[j][o] == SlotOf(idx, items[idx - start..], Position(b, base', j, o))
    {
      DropSlot(cells, b, base, start, items, idx, d, i, j, o);
      if j == 0 && o < from {
        assert cells[0][o] == SlotOf(start, items, Position(b, base, 0, o));
      }
    }
  }
}

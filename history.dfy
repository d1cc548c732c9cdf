/** The linear, bounded undo history of App.tsx (130-153, 515), as
    functions on a list of snapshots and a cursor into it. App.tsx's
    class keeps these two as fields and updates them with these functions. */
module History {

  /** `.slice(-20)` keeps at most this many snapshots. */
  const MaxEntries: nat := 20

  /** A well-formed history: non-empty, at most 20 entries, cursor in range. */
  predicate ValidTimeline<T>(entries: seq<T>, cursor: int) {
    1 <= |entries| <= MaxEntries && 0 <= cursor < |entries|
  }

  /** `s.slice(-n)`: the last `n` elements, or all of `s` when shorter. */
  function KeepLast<T>(s: seq<T>, n: nat): (r: seq<T>)
    ensures |r| == if |s| <= n then |s| else n
    ensures r == s[|s| - |r|..]
  {
    if |s| <= n then s else s[|s| - n..]
  }

  /** Keeping the last `n` twice is keeping the last `n` of everything. */
  lemma KeepLastAppend<T>(s: seq<T>, t: seq<T>, n: nat)
    ensures KeepLast(KeepLast(s, n) + t, n) == KeepLast(s + t, n)
  {
    var k := KeepLast(s, n);
    var lhs, rhs := KeepLast(k + t, n), KeepLast(s + t, n);
    assert |lhs| == |rhs|;
    forall i | 0 <= i < |lhs| ensures lhs[i] == rhs[i] {
      var j := |k + t| - |lhs| + i;
      if j < |k| {
        assert lhs[i] == k[j] == s[|s| - |k| + j];
        assert rhs[i] == (s + t)[|s| - |k| + j];
      } else {
        assert lhs[i] == t[j - |k|];
        assert rhs[i] == (s + t)[|s| + j - |k|];
      }
    }
  }

  /** pushToHistory's new history: drop the redo branch after the cursor,
      append the snapshot, keep the last 20. The kept part of the old
      history is its entries up to and including the cursor. */
  function Pushed<T>(entries: seq<T>, cursor: nat, snap: T): (r: seq<T>)
    requires cursor < |entries|
    ensures ValidTimeline(r, |r| - 1)
    ensures |r| == if cursor + 2 <= MaxEntries then cursor + 2 else MaxEntries
    ensures r[|r| - 1] == snap
    ensures r[..|r| - 1] == entries[cursor + 2 - |r|..cursor + 1]
  {
    KeepLast(entries[..cursor + 1] + [snap], MaxEntries)
  }

  /** Undo right after a push lands on the snapshot the cursor was on
      before the push; redo from there gives the pushed snapshot back. */
  lemma UndoAfterPush<T>(entries: seq<T>, cursor: nat, snap: T)
    requires cursor < |entries|
    ensures var r := Pushed(entries, cursor, snap);
      |r| >= 2 && r[|r| - 2] == entries[cursor] && r[(|r| - 2) + 1] == snap
  {
    var r := Pushed(entries, cursor, snap);
    assert r[..|r| - 1][|r| - 2] == entries[cursor + 2 - |r|..cursor + 1][|r| - 2];
  }

  /** The history after pushing each of `snaps` in turn. */
  function PushAll<T>(entries: seq<T>, cursor: nat, snaps: seq<T>): (r: seq<T>)
    requires cursor < |entries|
    decreases |snaps|
  {
    if snaps == [] then entries
    else
      var next := Pushed(entries, cursor, snaps[0]);
      PushAll(next, |next| - 1, snaps[1..])
  }

  /** After any number of pushes the history holds the last 20 of: the old
      entries up to the cursor followed by every pushed snapshot, in order. */
  lemma {:induction false} PushAllKeepsRecent<T>(entries: seq<T>, cursor: nat, snaps: seq<T>)
    requires cursor < |entries| && snaps != []
    ensures PushAll(entries, cursor, snaps) == KeepLast(entries[..cursor + 1] + snaps, MaxEntries)
    decreases |snaps|
  {
    var base := entries[..cursor + 1];
    var next := Pushed(entries, cursor, snaps[0]);
    if |snaps| == 1 {
      assert base + snaps == base + [snaps[0]];
    } else {
      PushAllKeepsRecent(next, |next| - 1, snaps[1..]);
      assert next[..|next|] == next;
      KeepLastAppend(base + [snaps[0]], snaps[1..], MaxEntries);
      assert base + [snaps[0]] + snaps[1..] == base + snaps;
    }
  }
}

/**
 * The held-key array of src/library/run_event_loop.c, as the sequence of
 * virtual key codes it holds, in array order.  WM_KEYDOWN appends a code
 * that is absent, WM_KEYUP removes a present code keeping the others in
 * order, and `key_held` is a membership test.
 */
module HeldKeys {
  /** A WPARAM, which carries the virtual key code: an unsigned 64-bit integer on 64-bit Windows. */
  type WParam = x: int | 0 <= x < 0x1_0000_0000_0000_0000

  predicate NoDuplicates(s: seq<WParam>) {
    forall i, j :: 0 <= i < j < |s| ==> s[i] != s[j]
  }

  /** The index of the first occurrence of `k` in `s`, or |s| when there is none. */
  function IndexOf(s: seq<WParam>, k: WParam): (i: nat)
    ensures i <= |s|
    ensures i < |s| ==> s[i] == k
    ensures forall j :: 0 <= j < i ==> s[j] != k
  {
    if s == [] then 0
    else if s[0] == k then 0
    else 1 + IndexOf(s[1..], k)
  }

  /** Key-down: the codes after pressing `k`. */
  function Pressed(s: seq<WParam>, k: WParam): seq<WParam> {
    if k in s then s else s + [k]
  }

  /** Key-up: the codes after releasing `k`; the first occurrence is removed. */
  function Released(s: seq<WParam>, k: WParam): seq<WParam> {
    var i := IndexOf(s, k);
    if i < |s| then s[..i] + s[i + 1..] else s
  }

  /** `IndexOf` finds `k` exactly when `k` is held. */
  lemma {:induction false} IndexOfFindsMembers(s: seq<WParam>, k: WParam)
    ensures IndexOf(s, k) < |s| <==> k in s
  {
    if s != [] && s[0] != k {
      IndexOfFindsMembers(s[1..], k);
      assert k in s <==> k in s[1..];
    }
  }

  /** Pressing keeps the codes distinct, adds exactly `k`, and appends it when it was not held. */
  lemma PressedAddsKey(s: seq<WParam>, k: WParam)
    requires NoDuplicates(s)
    ensures NoDuplicates(Pressed(s, k))
    ensures forall x :: x in Pressed(s, k) <==> x in s || x == k
    ensures |Pressed(s, k)| == if k in s then |s| else |s| + 1
  {
  }

  /** Releasing keeps the codes distinct, removes exactly `k`, and shrinks the array by one when `k` was held. */
  lemma ReleasedRemovesKey(s: seq<WParam>, k: WParam)
    requires NoDuplicates(s)
    ensures NoDuplicates(Released(s, k))
    ensures forall x :: x in Released(s, k) <==> x in s && x != k
    ensures |Released(s, k)| == if k in s then |s| - 1 else |s|
  {
    IndexOfFindsMembers(s, k);
    var i := IndexOf(s, k);
    if i < |s| {
      RemovalKeepsOthers(s, i);
      RemovalKeepsDistinct(s, i);
    }
  }

  /** Removing position `i` shifts every later code down by one. */
  lemma RemovalShifts(s: seq<WParam>, i: nat, j: nat)
    requires i < |s| && j < |s| - 1
    ensures (s[..i] + s[i + 1..])[j] == if j < i then s[j] else s[j + 1]
  {
  }

  /** Removing position `i` of a duplicate-free array removes exactly the code held there. */
  lemma RemovalKeepsOthers(s: seq<WParam>, i: nat)
    requires NoDuplicates(s) && i < |s|
    ensures forall x :: x in s[..i] + s[i + 1..] <==> x in s && x != s[i]
  {
    var r := s[..i] + s[i + 1..];
    forall x ensures x in r <==> x in s && x != s[i] {
      if x in r {
        var j :| 0 <= j < |r| && r[j] == x;
        RemovalShifts(s, i, j);
      }
      if x in s && x != s[i] {
        var j :| 0 <= j < |s| && s[j] == x;
        if j < i {
          RemovalShifts(s, i, j);
        } else {
          RemovalShifts(s, i, j - 1);
        }
      }
    }
  }

  /** Removing a position keeps the codes distinct. */
  lemma RemovalKeepsDistinct(s: seq<WParam>, i: nat)
    requires NoDuplicates(s) && i < |s|
    ensures NoDuplicates(s[..i] + s[i + 1..])
  {
    var r := s[..i] + s[i + 1..];
    forall a, b | 0 <= a < b < |r| ensures r[a] != r[b] {
      RemovalShifts(s, i, a);
      RemovalShifts(s, i, b);
    }
  }

  /** An auto-repeated key-down changes nothing. */
  lemma PressTwiceIsPressOnce(s: seq<WParam>, k: WParam)
    ensures Pressed(Pressed(s, k), k) == Pressed(s, k)
  {
  }

  /** Releasing a key that is not held changes nothing. */
  lemma ReleaseAbsentIsNoOp(s: seq<WParam>, k: WParam)
    requires k !in s
    ensures Released(s, k) == s
  {
    IndexOfFindsMembers(s, k);
  }

  /** Pressing a key that was not held and releasing it restores the array exactly. */
  lemma ReleaseUndoesPress(s: seq<WParam>, k: WParam)
    requires k !in s
    ensures Released(Pressed(s, k), k) == s
  {
    var t := s + [k];
    IndexOfFindsMembers(t, k);
    var i := IndexOf(t, k);
    assert t[..|s|] == s;
  }
}

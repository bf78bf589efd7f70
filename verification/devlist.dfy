/** The tail queue of src/mvls/queue.h and the in-place pass of `env_init_dev_sort`
    over it. */
module DevList {
  import opened SortPass

  /** TAILQ_HEAD. A pointer to a `next` field is modelled by the element that owns the
      field, and a pointer to the head's own `first` by null. */
  class Head {
    var first: Dev?
    var last: Dev?
    ghost var nodes: seq<Dev>
    /** All elements that ever were in the list. */
    ghost var repr: set<Dev>

    /** next, prev and last agree with the sequence of elements. */
    ghost predicate Valid()
      reads this, repr
    {
      (forall i | 0 <= i < |nodes| :: nodes[i] in repr)
      && (forall i, j | 0 <= i < j < |nodes| :: nodes[i] != nodes[j])
      && first == (if nodes == [] then null else nodes[0])
      && last == (if nodes == [] then null else nodes[|nodes| - 1])
      && (forall i {:trigger nodes[i].next} | 0 <= i < |nodes| ::
            nodes[i].next == if i + 1 < |nodes| then nodes[i + 1] else null)
      && (forall i {:trigger nodes[i].prev} | 0 <= i < |nodes| ::
            nodes[i].prev == if i == 0 then null else nodes[i - 1])
    }

    /** TAILQ_INIT */
    constructor ()
      ensures Valid() && nodes == []
    {
      first, last, nodes, repr := null, null, [], {};
    }

    /** TAILQ_INSERT_TAIL */
    method InsertTail(elm: Dev)
      requires Valid() && elm !in nodes
      modifies this, repr, elm
      ensures Valid() && nodes == old(nodes) + [elm] && repr == old(repr) + {elm}
    {
      elm.next := null;
      elm.prev := last;
      if last == null {
        first := elm;
      } else {
        last.next := elm;
      }
      last := elm;
      nodes, repr := nodes + [elm], repr + {elm};
    }

    /** TAILQ_INSERT_BEFORE, where `listelm` is element `k`. */
    method InsertBefore(listelm: Dev, elm: Dev, ghost k: nat)
      requires Valid() && elm !in nodes && k < |nodes| && nodes[k] == listelm
      modifies this, repr, elm
      ensures Valid() && nodes == Inserted(old(nodes), k, elm) && repr == old(repr) + {elm}
    {
      ghost var longer := Inserted(nodes, k, elm);
      InsertedAt(nodes, k, elm);
      hide Inserted;
      elm.prev := listelm.prev;
      elm.next := listelm;
      if listelm.prev == null {
        first := elm;
      } else {
        listelm.prev.next := elm;
      }
      listelm.prev := elm;
      nodes, repr := longer, repr + {elm};
    }

    /** TAILQ_REMOVE of element `k`. */
    method Remove(elm: Dev, ghost k: nat)
      requires Valid() && k < |nodes| && nodes[k] == elm
      modifies this, repr
      ensures Valid() && nodes == Removed(old(nodes), k) && elm !in nodes && repr == old(repr)
    {
      ghost var shorter := Removed(nodes, k);
      RemovedAt(nodes, k);
      hide Removed;
      if elm.next != null {
        elm.next.prev := elm.prev;
      } else {
        last := elm.prev;
      }
      if elm.prev == null {
        first := elm.next;
      } else {
        elm.prev.next := elm.next;
      }
      nodes := shorter;
    }

    /** The search for the first later element that is not below `x`. */
    method FindStop(next: Dev, x: int, ghost k: nat) returns (insert: Dev?)
      requires Valid() && k < |nodes| && nodes[k] == next
      ensures insert == var j := Stop(nodes, x, k); if j == |nodes| then null else nodes[j]
    {
      insert := next;
      ghost var j := k;
      while insert != null && insert.index < x
        invariant k <= j <= |nodes| && insert == if j == |nodes| then null else nodes[j]
        invariant Stop(nodes, x, k) == Stop(nodes, x, j)
        decreases |nodes| - j
      {
        insert := insert.next;
        j := j + 1;
      }
    }

    /** Moves the element at the cursor, `k`, behind all smaller ones that follow it. */
    method MoveForward(dev: Dev, next: Dev, ghost k: nat)
      requires Valid() && k + 1 < |nodes| && nodes[k] == dev && nodes[k + 1] == next
      modifies this, repr
      ensures Valid() && nodes == Advanced(old(nodes), k) && repr == old(repr)
    {
      ghost var was := nodes;
      ghost var j := Stop(was, dev.index, k + 1);
      MovedIsBubble(was, k);
      hide Bubble, Stop, Valid, Removed, MovedBefore, Advanced;
      var insert := FindStop(next, dev.index, k + 1);
      if insert != null {
        MoveBefore(insert, dev, k, j);
      } else {
        MoveToTail(dev, k);
      }
    }

    method MoveBefore(insert: Dev, dev: Dev, ghost k: nat, ghost j: nat)
      requires Valid() && k < j < |nodes| && nodes[k] == dev && nodes[j] == insert
      modifies this, repr
      ensures Valid() && nodes == MovedBefore(old(nodes), k, j) && repr == old(repr)
    {
      ghost var shorter := Removed(nodes, k);
      RemovedAt(nodes, k);
      AtCursor(k);
      hide Valid, Removed, Inserted;
      assert shorter[j - 1] == insert;
      assert repr + {dev} == repr;
      Remove(dev, k);
      InsertBefore(insert, dev, j - 1);
    }

    method MoveToTail(dev: Dev, ghost k: nat)
      requires Valid() && k < |nodes| && nodes[k] == dev
      modifies this, repr
      ensures Valid() && nodes == Removed(old(nodes), k) + [old(nodes)[k]] && repr == old(repr)
    {
      AtCursor(k);
      hide Valid, Removed;
      assert repr + {dev} == repr;
      Remove(dev, k);
      InsertTail(dev);
    }

    /** `env_init_dev_sort`: the list afterwards holds what the pass makes of it. */
    method Sort()
      requires Valid()
      modifies this, repr
      ensures Valid() && nodes == Pass(old(nodes)) && repr == old(repr)
    {
      hide Bubble, Valid, Below, Advanced;
      ghost var k := 0;
      ghost var was := nodes;
      AtCursor(0);
      var dev := first;
      assert nodes[0..] == nodes && nodes[..0] == [];
      while dev != null
        invariant Valid() && k <= |nodes| && repr == old(repr)
        invariant dev == if k == |nodes| then null else nodes[k]
        invariant Pass(was) == nodes[..k] + Pass(nodes[k..])
        decreases |nodes| - k, if k == |nodes| then 0 else Below(nodes[k..], nodes[k].index)
      {
        AtCursor(k);
        var next := dev.next;
        ghost var rest := nodes[k..];
        if next == null {
          break;
        }
        StayIsPass(nodes, k);
        if next.index > dev.index {
          k := k + 1;
          dev := next;
          continue;
        }
        ghost var before := nodes;
        MoveForward(dev, next, k);
        if next.index == dev.index {
          EqualStays(before, k);
          k := k + 1;
        } else {
          BubbleProgress(rest);
          AfterMove(before, nodes, k);
        }
        dev := next;
      }
      if k < |nodes| {
        assert |nodes[k..]| == 1;
      }
      assert nodes == nodes[..k] + nodes[k..];
    }

    /** What the links say at position `k`. */
    lemma AtCursor(k: nat)
      requires Valid() && k <= |nodes|
      ensures k < |nodes| ==> nodes[k].next == if k + 1 < |nodes| then nodes[k + 1] else null
      ensures k < |nodes| ==> nodes[k] in repr
      ensures k == 0 ==> first == if nodes == [] then null else nodes[0]
    {
    }
  }

  // ---- sequence facts ------------------------------------------------------

  ghost function Inserted(t: seq<Dev>, k: nat, d: Dev): seq<Dev>
    requires k <= |t|
  {
    t[..k] + [d] + t[k..]
  }

  lemma InsertedAt(t: seq<Dev>, k: nat, d: Dev)
    requires k <= |t|
    ensures var u := Inserted(t, k, d);
            |u| == |t| + 1 && forall i {:trigger u[i]} | 0 <= i < |u| :: u[i] == if i < k then t[i] else if i == k then d else t[i - 1]
  {
  }

  ghost function Removed(t: seq<Dev>, k: nat): seq<Dev>
    requires k < |t|
  {
    t[..k] + t[k + 1..]
  }

  lemma RemovedAt(t: seq<Dev>, k: nat)
    requires k < |t|
    ensures var u := Removed(t, k);
            |u| == |t| - 1 && forall i {:trigger u[i]} | 0 <= i < |u| :: u[i] == if i < k then t[i] else t[i + 1]
  {
  }

  lemma {:induction false} StopShift(t: seq<Dev>, k: nat, x: int, j: nat)
    requires k + j <= |t|
    ensures Stop(t, x, k + j) == k + Stop(t[k..], x, j)
    decreases |t| - k - j
  {
    if k + j < |t| && t[k + j].index < x {
      StopShift(t, k, x, j + 1);
    }
  }

  ghost function MovedBefore(t: seq<Dev>, k: nat, j: nat): seq<Dev>
    requires k < j < |t|
  {
    Inserted(Removed(t, k), j - 1, t[k])
  }

  /** The list after the element at the cursor was moved. */
  ghost function Advanced(t: seq<Dev>, k: nat): seq<Dev>
    requires k < |t|
  {
    t[..k] + Bubble(t[k..])
  }

  lemma MovedIsBubble(t: seq<Dev>, k: nat)
    requires k + 1 < |t|
    ensures var j := Stop(t, t[k].index, k + 1);
            Advanced(t, k) == if j < |t| then MovedBefore(t, k, j) else Removed(t, k) + [t[k]]
  {
    var j := Stop(t, t[k].index, k + 1);
    AdvancedSplit(t, k);
    hide Advanced, MovedBefore;
    if j < |t| {
      MovedBeforeSplit(t, k, j);
    } else {
      assert Removed(t, k) == t[..k] + t[k + 1..j];
      assert t[j..] == [];
    }
  }

  lemma MovedBeforeSplit(t: seq<Dev>, k: nat, j: nat)
    requires k < j < |t|
    ensures MovedBefore(t, k, j) == t[..k] + t[k + 1..j] + [t[k]] + t[j..]
  {
    var r := Removed(t, k);
    assert r[..j - 1] == t[..k] + t[k + 1..j] && r[j - 1..] == t[j..];
  }

  lemma AdvancedSplit(t: seq<Dev>, k: nat)
    requires k < |t|
    ensures var j := Stop(t, t[k].index, k + 1);
            Advanced(t, k) == t[..k] + t[k + 1..j] + [t[k]] + t[j..]
  {
    hide Bubble, Stop;
    var j := Stop(t, t[k].index, k + 1);
    BubbleSplit(t, k);
    Associate(t[..k], t[k + 1..j], [t[k]], t[j..]);
  }

  lemma BubbleSplit(t: seq<Dev>, k: nat)
    requires k < |t|
    ensures var j := Stop(t, t[k].index, k + 1);
            Bubble(t[k..]) == t[k + 1..j] + [t[k]] + t[j..]
  {
    hide Stop;
    var u := t[k..];
    StopShift(t, k, t[k].index, 1);
    Slices(t, k, 1, Stop(u, u[0].index, 1));
  }

  lemma Slices(t: seq<Dev>, k: nat, i: nat, j: nat)
    requires i <= j && k + j <= |t|
    ensures t[k..][i..j] == t[k + i..k + j] && t[k..][j..] == t[k + j..]
  {
  }

  lemma Associate(p: seq<Dev>, q: seq<Dev>, r: seq<Dev>, s: seq<Dev>)
    ensures p + (q + r + s) == p + q + r + s
  {
  }

  lemma StayIsPass(t: seq<Dev>, k: nat)
    requires k + 1 < |t|
    ensures var r := t[k..];
            t[k + 1].index >= t[k].index ==> t[..k] + Pass(r) == t[..k + 1] + Pass(t[k + 1..])
  {
    assert t[k..][1..] == t[k + 1..];
    assert t[..k + 1] == t[..k] + [t[k]];
  }

  lemma EqualStays(t: seq<Dev>, k: nat)
    requires k + 1 < |t| && t[k + 1].index == t[k].index
    ensures Advanced(t, k) == t
  {
    assert Stop(t[k..], t[k].index, 1) == 1;
  }

  lemma AfterMove(t: seq<Dev>, u: seq<Dev>, k: nat)
    requires k + 1 < |t| && t[k + 1].index < t[k].index && u == Advanced(t, k)
    ensures |u| == |t| && u[..k] == t[..k] && u[k..] == Bubble(t[k..])
    ensures Pass(t[k..]) == Pass(u[k..])
  {
    BubbleProgress(t[k..]);
  }
}

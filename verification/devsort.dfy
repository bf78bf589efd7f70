/** `env_init_dev_sort` of src/mvls/mvls.c as a function on sequences: what one pass
    over the device list does to the order, and when the result is sorted. */
module SortPass {
  class Dev {
    const index: int
    /** TAILQ_ENTRY: the next element, and the element whose `next` points here, or
        null if it is the head's `first` that does. */
    var next: Dev?
    var prev: Dev?

    constructor (i: int)
      ensures index == i
    {
      index := i;
      next, prev := null, null;
    }
  }

  /** The first position from `j` on whose index is not below `x`, or the end. */
  function Stop(t: seq<Dev>, x: int, j: nat): (r: nat)
    requires j <= |t|
    ensures j <= r <= |t|
    ensures forall i | j <= i < r :: t[i].index < x
    ensures r < |t| ==> t[r].index >= x
    decreases |t| - j
  {
    if j < |t| && t[j].index < x then Stop(t, x, j + 1) else j
  }

  /** The head moved behind everything smaller that directly follows it. */
  function Bubble(t: seq<Dev>): (u: seq<Dev>)
    requires |t| > 0
    ensures |u| == |t|
  {
    var j := Stop(t, t[0].index, 1);
    t[1..j] + [t[0]] + t[j..]
  }

  function Below(t: seq<Dev>, x: int): nat {
    if t == [] then 0 else (if t[0].index < x then 1 else 0) + Below(t[1..], x)
  }

  lemma {:induction false} BelowConcat(t: seq<Dev>, u: seq<Dev>, x: int)
    ensures Below(t + u, x) == Below(t, x) + Below(u, x)
  {
    if t == [] {
      assert t + u == u;
    } else {
      assert (t + u)[1..] == t[1..] + u;
      BelowConcat(t[1..], u, x);
    }
  }

  lemma {:induction false} BelowLess(t: seq<Dev>, i: nat, x: int)
    requires i < |t| && t[i].index < x
    ensures Below(t, t[i].index) < Below(t, x)
    decreases |t|
  {
    if i > 0 {
      BelowLess(t[1..], i - 1, x);
    } else {
      BelowMonotone(t[1..], t[0].index, x);
    }
  }

  lemma {:induction false} BelowMonotone(t: seq<Dev>, x: int, y: int)
    requires x <= y
    ensures Below(t, x) <= Below(t, y)
  {
    if t != [] {
      BelowMonotone(t[1..], x, y);
    }
  }

  lemma MovedBack(a: seq<Dev>, m: seq<Dev>, rest: seq<Dev>, x: int)
    ensures Below(m + a + rest, x) == Below(a + m + rest, x)
    ensures multiset(m + a + rest) == multiset(a + m + rest)
  {
    hide Below;
    BelowConcat(m + a, rest, x);
    BelowConcat(m, a, x);
    BelowConcat(a + m, rest, x);
    BelowConcat(a, m, x);
  }

  /** Moving the head leaves the same devices, and a head that fewer of them are
      smaller than: this is why the pass ends. */
  lemma BubbleProgress(t: seq<Dev>)
    requires |t| > 1 && t[1].index < t[0].index
    ensures var u := Bubble(t);
            multiset(u) == multiset(t) && u[0] == t[1] && Below(u, u[0].index) < Below(t, t[0].index)
  {
    hide Below;
    var j := Stop(t, t[0].index, 1);
    StopMoves(t, t[0].index);
    hide Stop;
    assert t == [t[0]] + t[1..j] + t[j..];
    MovedBack([t[0]], t[1..j], t[j..], t[1].index);
    BelowLess(t, 1, t[0].index);
  }

  lemma StopMoves(t: seq<Dev>, x: int)
    requires |t| > 1 && t[1].index < x
    ensures Stop(t, x, 1) >= 2
  {
  }

  /** The pass over the devices from the cursor on: a head that is not above its
      successor stays, any other is moved and the successor becomes the head. */
  function Pass(t: seq<Dev>): (r: seq<Dev>)
    ensures |r| == |t|
    decreases |t|, if t == [] then 0 else Below(t, t[0].index)
  {
    if |t| <= 1 then t
    else if t[1].index >= t[0].index then [t[0]] + Pass(t[1..])
    else
      BubbleProgress(t);
      Pass(Bubble(t))
  }

  lemma {:induction false} PassPermutes(t: seq<Dev>)
    ensures multiset(Pass(t)) == multiset(t)
    decreases |t|, if t == [] then 0 else Below(t, t[0].index)
  {
    if |t| > 1 {
      if t[1].index >= t[0].index {
        PassPermutes(t[1..]);
        assert t == [t[0]] + t[1..];
      } else {
        BubbleProgress(t);
        PassPermutes(Bubble(t));
      }
    }
  }

  ghost predicate Sorted(t: seq<Dev>) {
    forall i, j | 0 <= i < j < |t| :: t[i].index <= t[j].index
  }

  lemma InPass(t: seq<Dev>, d: Dev)
    ensures d in Pass(t) <==> d in t
  {
    PassPermutes(t);
    assert d in multiset(Pass(t)) <==> d in multiset(t);
  }

  // ---- a maximum ends up last ----------------------------------------------

  lemma {:induction false} MaximumLast(t: seq<Dev>)
    requires t != []
    ensures forall d | d in t :: d.index <= Pass(t)[|t| - 1].index
    decreases |t|, Below(t, t[0].index)
  {
    if |t| > 1 {
      if t[1].index >= t[0].index {
        MaximumLast(t[1..]);
        assert t[1] in t[1..];
        forall d | d in t ensures d.index <= Pass(t)[|t| - 1].index {
          assert d == t[0] || d in t[1..];
        }
      } else {
        BubbleProgress(t);
        MaximumLast(Bubble(t));
        forall d | d in t ensures d.index <= Pass(t)[|t| - 1].index {
          assert d in multiset(Bubble(t));
        }
      }
    }
  }

  // ---- unchanged exactly if sorted -----------------------------------------

  lemma {:induction false} HeadNeverRises(t: seq<Dev>)
    requires t != []
    ensures Pass(t)[0].index <= t[0].index
    decreases |t|, Below(t, t[0].index)
  {
    if |t| > 1 && t[1].index < t[0].index {
      BubbleProgress(t);
      HeadNeverRises(Bubble(t));
    }
  }

  lemma {:induction false} UnchangedIffSorted(t: seq<Dev>)
    ensures Pass(t) == t <==> Sorted(t)
    decreases |t|
  {
    if |t| > 1 {
      if t[1].index >= t[0].index {
        UnchangedIffSorted(t[1..]);
        assert Pass(t) == [t[0]] + Pass(t[1..]) && t == [t[0]] + t[1..];
        assert Pass(t)[1..] == Pass(t[1..]);
        SortedTail(t);
      } else {
        BubbleProgress(t);
        HeadNeverRises(Bubble(t));
      }
    }
  }

  lemma SortedTail(t: seq<Dev>)
    requires |t| > 1 && t[1].index >= t[0].index
    ensures Sorted(t) <==> Sorted(t[1..])
  {
    var u := t[1..];
    if Sorted(u) {
      forall i, j | 0 <= i < j < |t| ensures t[i].index <= t[j].index {
        assert u[0].index <= u[j - 1].index;
      }
    }
    if Sorted(t) {
      forall i, j | 0 <= i < j < |u| ensures u[i].index <= u[j].index {
        assert t[i + 1].index <= t[j + 1].index;
      }
    }
  }

  // ---- sorted exactly if the input avoids one pattern ----------------------

  ghost predicate Triple(t: seq<Dev>, i: int, j: int, k: int) {
    0 <= i < j < k < |t| && t[k].index < t[i].index <= t[j].index
  }

  /** Three devices, in this order: one, another not below it, and one below both. */
  ghost predicate Pattern(t: seq<Dev>) { exists i, j, k :: Triple(t, i, j, k) }

  lemma BubbleAt(t: seq<Dev>)
    requires |t| > 0
    ensures var u, j := Bubble(t), Stop(t, t[0].index, 1);
            forall i {:trigger u[i]} | 0 <= i < |t| :: u[i] == if i < j - 1 then t[i + 1] else if i == j - 1 then t[0] else t[i]
  {
  }

  lemma BubbleKeepsPattern(t: seq<Dev>)
    requires |t| > 1 && t[1].index < t[0].index
    ensures Pattern(t) <==> Pattern(Bubble(t))
  {
    hide Bubble;
    if Pattern(t) {
      PatternSurvives(t);
    }
    if Pattern(Bubble(t)) {
      PatternWasThere(t);
    }
  }

  lemma PatternSurvives(t: seq<Dev>)
    requires |t| > 1 && t[1].index < t[0].index && Pattern(t)
    ensures Pattern(Bubble(t))
  {
    BubbleAt(t);
    var u, j := Bubble(t), Stop(t, t[0].index, 1);
    hide Bubble;
    var a, b, c :| Triple(t, a, b, c);
    var to := (i: int) => if i == 0 then j - 1 else if i < j then i - 1 else i;
    assert Triple(u, to(a), to(b), to(c));
  }

  lemma PatternWasThere(t: seq<Dev>)
    requires |t| > 1 && t[1].index < t[0].index && Pattern(Bubble(t))
    ensures Pattern(t)
  {
    BubbleAt(t);
    var u, j := Bubble(t), Stop(t, t[0].index, 1);
    hide Bubble;
    var a, b, c :| Triple(u, a, b, c);
    var from := (i: int) => if i == j - 1 then 0 else if i < j - 1 then i + 1 else i;
    if b == j - 1 {
      assert Triple(t, 0, j, c);
    } else {
      assert Triple(t, from(a), from(b), from(c));
    }
  }

  lemma TailPattern(t: seq<Dev>)
    requires |t| > 1 && forall i | 0 <= i < |t| :: t[0].index <= t[i].index
    ensures Pattern(t) <==> Pattern(t[1..])
  {
    var u := t[1..];
    if Pattern(t) {
      var a, b, c :| Triple(t, a, b, c);
      assert Triple(u, a - 1, b - 1, c - 1);
    }
    if Pattern(u) {
      var a, b, c :| Triple(u, a, b, c);
      assert Triple(t, a + 1, b + 1, c + 1);
    }
  }

  /** One pass sorts exactly the lists without the pattern; [2, 3, 1] is the smallest
      it does not sort. */
  lemma {:induction false} SortedIffNoPattern(t: seq<Dev>)
    ensures Sorted(Pass(t)) <==> !Pattern(t)
    decreases |t|, if t == [] then 0 else Below(t, t[0].index)
  {
    if |t| > 1 {
      if t[1].index < t[0].index {
        BubbleProgress(t);
        BubbleKeepsPattern(t);
        SortedIffNoPattern(Bubble(t));
      } else {
        var p := Pass(t[1..]);
        SortedIffNoPattern(t[1..]);
        if k :| 0 <= k < |t| && t[k].index < t[0].index {
          assert Triple(t, 0, 1, k);
          assert t[k] in t[1..];
          InPass(t[1..], t[k]);
          var m :| 0 <= m < |p| && p[m] == t[k];
          assert Pass(t)[m + 1] == t[k] && Pass(t)[0] == t[0];
        } else {
          TailPattern(t);
          forall i | 0 <= i < |p| ensures t[0].index <= p[i].index {
            InPass(t[1..], p[i]);
            assert p[i] in t;
          }
          HeadBelow(t[0], p);
        }
      }
    }
  }

  lemma HeadBelow(d: Dev, p: seq<Dev>)
    requires forall i | 0 <= i < |p| :: d.index <= p[i].index
    ensures Sorted([d] + p) <==> Sorted(p)
  {
    var t := [d] + p;
    if Sorted(t) {
      forall i, j | 0 <= i < j < |p| ensures p[i].index <= p[j].index {
        assert t[i + 1].index <= t[j + 1].index;
      }
    }
  }

  /** The comment above the function promises a sort; here is why it is not one. */
  lemma OnePassIsNotEnough(two: Dev, three: Dev, one: Dev)
    requires two.index == 2 && three.index == 3 && one.index == 1
    ensures Pass([two, three, one]) == [two, one, three] && !Sorted([two, one, three])
  {
    var t := [two, three, one];
    var u := t[1..];
    assert u == [three, one];
    assert Bubble(u) == [one, three];
    BubbleProgress(u);
    assert [one, three][1..] == [three];
    assert Pass([one, three]) == [one, three];
    assert Pass(u) == [one, three];
    var r := [two, one, three];
    assert r[1].index < r[0].index;
  }
}

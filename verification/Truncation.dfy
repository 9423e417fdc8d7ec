/** What cutting pending lists down to size means, apart from how the pool does it. */
module Truncation {
  import opened Types
  import opened Lists
  import opened Accounts
  import Sorting

  ghost function Total(m: Accounts): nat
    decreases |m|
  {
    if m == map[] then 0
    else
      var a :| a in m;
      |m[a]| + Total(m - {a})
  }

  lemma {:induction false} TotalRemove(m: Accounts, a: Address)
    requires a in m
    ensures Total(m) == |m[a]| + Total(m - {a})
    decreases |m|
  {
    var b :| b in m && Total(m) == |m[b]| + Total(m - {b});
    if b != a {
      var m', m'' := m - {b}, m - {a};
      assert a in m' && m'[a] == m[a] && b in m'' && m''[b] == m[b];
      TotalRemove(m', a);
      TotalRemove(m'', b);
      assert m' - {a} == m'' - {b};
    }
  }

  lemma TotalWithout(m: Accounts, a: Address)
    ensures Total(m - {a}) == Total(m) - |At(m, a)|
  {
    hide Total;
    if a in m {
      TotalRemove(m, a);
    } else {
      assert m - {a} == m;
    }
  }

  lemma TotalUpdate(m: Accounts, a: Address, l: List)
    ensures Total(m[a := l]) == Total(m) - |At(m, a)| + |l|
  {
    hide Total;
    TotalRemove(m[a := l], a);
    WithoutTwice(m, a, l);
    TotalWithout(m, a);
  }

  /** `p` is `p0` with some lists cut from the top. */
  ghost predicate CutFrom(p0: Accounts, p: Accounts) {
    p.Keys == p0.Keys && forall a :: a in p ==> |p[a]| <= |p0[a]| && p[a] == Capped(p0[a], |p[a]|)
  }

  /** `p` with the top taken off one list. */
  function Shortened(p: Accounts, a: Address): Accounts
    requires a in p
  {
    p[a := Capped(p[a], if |p[a]| > 0 then |p[a]| - 1 else 0)]
  }

  function Len(p: Accounts, a: Address): nat {
    |At(p, a)|
  }

  /** Accounts that may be cut: not local and above their guaranteed slots. */
  ghost predicate Heavy(p: Accounts, locals: set<Address>, slots: nat, a: Address) {
    a in p && a !in locals && Len(p, a) > slots
  }

  ghost function Trimmed(p0: Accounts, p: Accounts): set<Address> {
    set a | a in p && At(p, a) != At(p0, a)
  }

  /** How `truncatePending` leaves the lists. */
  ghost predicate Truncated(p0: Accounts, p: Accounts, locals: set<Address>, accountSlots: nat, globalSlots: nat) {
    && CutFrom(p0, p)
    && (Total(p0) <= globalSlots ==> p == p0)
    && (Total(p) <= globalSlots || forall a :: a in p && a !in locals ==> Len(p, a) <= accountSlots)
    && (forall a :: a in Trimmed(p0, p) ==> a !in locals && accountSlots <= Len(p, a))
    && (forall a, b :: a in Trimmed(p0, p) && b in p && b !in locals && b !in Trimmed(p0, p) ==> Len(p, b) <= Len(p, a))
    && (Total(p0) > globalSlots ==> Total(p) + |Trimmed(p0, p)| > globalSlots)
  }

  /** The accounts popped so far, in order, and those still to be popped. */
  ghost predicate Popping(p0: Accounts, p: Accounts, locals: set<Address>, slots: nat, offenders: seq<Address>,
                          left: set<Address>)
  {
    && CutFrom(p0, p) && Distinct(offenders)
    && (forall a :: a in offenders ==> a !in left)
    && (forall a :: a in offenders || a in left <==> Heavy(p0, locals, slots, a))
    && (forall a :: a !in offenders ==> At(p, a) == At(p0, a))
  }

  /** The offenders before the last have been brought to the same length, no less than the last
      one's, which is untouched and no less than that of any still to come. */
  ghost predicate Levelled(p0: Accounts, p: Accounts, slots: nat, offenders: seq<Address>, left: set<Address>,
                           level: nat)
  {
    |offenders| > 0 ==>
      var last := offenders[|offenders| - 1];
      && At(p, last) == At(p0, last)
      && slots < Len(p, last) <= level
      && (forall i :: 0 <= i < |offenders| - 1 ==> Len(p, offenders[i]) == level)
      && (forall b :: b in left ==> Len(p, b) <= Len(p, last))
  }

  /** All these accounts have lists of the same length. */
  ghost predicate Flat(p: Accounts, addrs: seq<Address>, level: nat) {
    forall i :: 0 <= i < |addrs| ==> Len(p, addrs[i]) == level
  }

  /** The limit is undershot by fewer transactions than there are trimmed accounts. */
  ghost predicate Close(p0: Accounts, p: Accounts, globalSlots: nat) {
    Total(p) + |Trimmed(p0, p)| > globalSlots
  }

  /** `p'` is `p` with the top taken off each of the first `n` lists. */
  ghost predicate Swept(p: Accounts, p': Accounts, addrs: seq<Address>, n: nat) {
    && n <= |addrs| && p'.Keys == p.Keys
    && Total(p') == Total(p) - n
    && (forall a :: a !in addrs[..n] ==> At(p', a) == At(p, a))
    && (forall a :: a in addrs[..n] ==> Len(p', a) == Len(p, a) - 1 && At(p', a) == Capped(At(p, a), Len(p', a)))
  }

  lemma SweptNone(p: Accounts, addrs: seq<Address>)
    ensures Swept(p, p, addrs, 0)
  {
  }

  lemma SweptOneMore(p: Accounts, p': Accounts, addrs: seq<Address>, n: nat)
    requires Swept(p, p', addrs, n) && n < |addrs| && Distinct(addrs)
    requires addrs[n] in p && Len(p, addrs[n]) > 0
    ensures Swept(p, Shortened(p', addrs[n]), addrs, n + 1)
    ensures addrs[n] in p' && At(p', addrs[n]) == At(p, addrs[n]) == p'[addrs[n]]
  {
    hide Capped, Total;
    var a := addrs[n];
    assert addrs[..n + 1] == addrs[..n] + [a];
    assert a !in addrs[..n];
    CappedWithin(p[a], |p[a]| - 1);
    TotalUpdate(p', a, Capped(p'[a], |p'[a]| - 1));
  }

  lemma SweptCutFrom(p0: Accounts, p: Accounts, p': Accounts, addrs: seq<Address>)
    requires CutFrom(p0, p) && Swept(p, p', addrs, |addrs|)
    ensures CutFrom(p0, p')
  {
    assert addrs[..|addrs|] == addrs;
    forall a | a in p' ensures |p'[a]| <= |p0[a]| && p'[a] == Capped(p0[a], |p'[a]|) {
      if a in addrs {
        assert At(p', a) == p'[a] && At(p, a) == p[a];
        CappedAgain(p0[a], |p[a]|, |p'[a]|);
      } else {
        assert At(p', a) == At(p, a);
      }
    }
  }

  /** A sweep begun above the limit stays close to it. */
  lemma SweptClose(p0: Accounts, p: Accounts, p': Accounts, addrs: seq<Address>, globalSlots: nat)
    requires CutFrom(p0, p) && CutFrom(p0, p') && Swept(p, p', addrs, |addrs|) && Distinct(addrs)
    requires Total(p) > globalSlots && forall a :: a in addrs ==> a in p
    ensures Close(p0, p', globalSlots)
  {
    assert addrs[..|addrs|] == addrs;
    forall a | a in addrs ensures a in Trimmed(p0, p') {
      assert Len(p', a) < Len(p0, a);
    }
    DistinctSize(addrs, Trimmed(p0, p'));
  }

  lemma {:induction false} DistinctSize(addrs: seq<Address>, s: set<Address>)
    requires Distinct(addrs) && forall a :: a in addrs ==> a in s
    ensures |addrs| <= |s|
    decreases |addrs|
  {
    if addrs != [] {
      var k := |addrs| - 1;
      assert addrs == addrs[..k] + [addrs[k]];
      assert addrs[k] !in addrs[..k];
      DistinctSize(addrs[..k], s - {addrs[k]});
    }
  }

  lemma PopStep(p0: Accounts, p: Accounts, locals: set<Address>, slots: nat, offenders: seq<Address>,
                left: set<Address>, level: nat, o: Address)
    requires Popping(p0, p, locals, slots, offenders, left) && Levelled(p0, p, slots, offenders, left, level)
    requires |offenders| > 0 ==> level == Len(p, offenders[|offenders| - 1])
    requires o in left && forall b :: b in left ==> Len(p, b) <= Len(p, o)
    ensures Popping(p0, p, locals, slots, offenders + [o], left - {o})
    ensures Levelled(p0, p, slots, offenders + [o], left - {o}, if |offenders| > 0 then level else Len(p, o))
  {
    hide CutFrom;
    assert At(p, o) == At(p0, o);
    assert Heavy(p0, locals, slots, o);
    forall a ensures a in offenders + [o] <==> a in offenders || a == o {
    }
  }

  lemma SweptPopping(p0: Accounts, p: Accounts, p': Accounts, locals: set<Address>, slots: nat,
                     offenders: seq<Address>, left: set<Address>, addrs: seq<Address>)
    requires Popping(p0, p, locals, slots, offenders, left) && Swept(p, p', addrs, |addrs|)
    requires forall a :: a in addrs ==> a in offenders
    ensures Popping(p0, p', locals, slots, offenders, left)
  {
    hide CutFrom, Capped;
    assert addrs[..|addrs|] == addrs;
    SweptCutFrom(p0, p, p', addrs);
  }

  /** Equalising: the group before the last offender comes down by one. */
  lemma SweptLevelled(p0: Accounts, p: Accounts, p': Accounts, locals: set<Address>, slots: nat,
                      offenders: seq<Address>, left: set<Address>, level: nat)
    requires Popping(p0, p, locals, slots, offenders, left) && Levelled(p0, p, slots, offenders, left, level)
    requires |offenders| > 1 && level > Len(p, offenders[|offenders| - 1])
    requires Swept(p, p', offenders[..|offenders| - 1], |offenders| - 1)
    ensures Popping(p0, p', locals, slots, offenders, left) && Levelled(p0, p', slots, offenders, left, level - 1)
  {
    hide CutFrom, Capped;
    var group := offenders[..|offenders| - 1];
    assert group[..|group|] == group;
    SweptPopping(p0, p, p', locals, slots, offenders, left, group);
    forall i | 0 <= i < |group| ensures Len(p', offenders[i]) == level - 1 {
      assert group[i] in group;
    }
    forall b | b in left ensures Len(p', b) == Len(p, b) {
      assert b !in group;
    }
    assert offenders[|offenders| - 1] !in group;
  }

  /** The last phase: all offenders come down by one. */
  lemma SweptFlat(p0: Accounts, p: Accounts, p': Accounts, locals: set<Address>, slots: nat, offenders: seq<Address>,
                  level: nat)
    requires Popping(p0, p, locals, slots, offenders, {}) && Flat(p, offenders, level) && level > 0
    requires Swept(p, p', offenders, |offenders|)
    ensures Popping(p0, p', locals, slots, offenders, {}) && Flat(p', offenders, level - 1)
  {
    hide CutFrom, Capped;
    assert offenders[..|offenders|] == offenders;
    SweptPopping(p0, p, p', locals, slots, offenders, {}, offenders);
    forall i | 0 <= i < |offenders| ensures Len(p', offenders[i]) == level - 1 {
      assert offenders[i] in offenders;
    }
  }

  lemma TrimmedIsOffender(p0: Accounts, p: Accounts, locals: set<Address>, slots: nat, offenders: seq<Address>,
                          left: set<Address>, a: Address)
    requires Popping(p0, p, locals, slots, offenders, left) && a in Trimmed(p0, p)
    ensures a in offenders && a !in locals
  {
    assert a in offenders;
    assert Heavy(p0, locals, slots, a);
  }

  /** The limit was reached while equalising. */
  lemma TruncatedEarly(p0: Accounts, p: Accounts, locals: set<Address>, slots: nat, globalSlots: nat,
                       offenders: seq<Address>, left: set<Address>, level: nat)
    requires Popping(p0, p, locals, slots, offenders, left) && Levelled(p0, p, slots, offenders, left, level)
    requires Total(p) <= globalSlots < Total(p0) && Close(p0, p, globalSlots)
    ensures Truncated(p0, p, locals, slots, globalSlots)
  {
    hide Capped, Total;
    forall a | a in Trimmed(p0, p)
      ensures a !in locals && slots <= Len(p, a)
      ensures forall b :: b in p && b !in locals && b !in Trimmed(p0, p) ==> Len(p, b) <= Len(p, a)
    {
      TrimmedIsOffender(p0, p, locals, slots, offenders, left, a);
      var i :| 0 <= i < |offenders| && offenders[i] == a;
      assert i < |offenders| - 1;
      assert Len(p, a) == level;
      forall b | b in p && b !in locals && b !in Trimmed(p0, p) ensures Len(p, b) <= level {
        LightOrLevel(p0, p, locals, slots, offenders, left, level, b);
      }
    }
  }

  lemma LightOrLevel(p0: Accounts, p: Accounts, locals: set<Address>, slots: nat,
                     offenders: seq<Address>, left: set<Address>, level: nat, b: Address)
    requires Popping(p0, p, locals, slots, offenders, left) && Levelled(p0, p, slots, offenders, left, level)
    requires |offenders| > 0 && b in p && b !in locals && At(p, b) == At(p0, b)
    ensures Len(p, b) <= level
  {
    assert p.Keys == p0.Keys;
    if Heavy(p0, locals, slots, b) && b !in left {
      assert b in offenders;
      var i :| 0 <= i < |offenders| && offenders[i] == b;
    }
  }

  /** The last phase ended with all offenders equally long. */
  lemma TruncatedFlat(p0: Accounts, p: Accounts, locals: set<Address>, slots: nat, globalSlots: nat,
                      offenders: seq<Address>, level: nat)
    requires Popping(p0, p, locals, slots, offenders, {}) && Flat(p, offenders, level) && slots <= level
    requires Total(p) <= globalSlots || offenders == [] || level == slots
    requires globalSlots < Total(p0) && Close(p0, p, globalSlots)
    ensures Truncated(p0, p, locals, slots, globalSlots)
  {
    hide Capped, Total;
    forall b | b in p && b !in locals ensures Len(p, b) <= (if offenders == [] then slots else level) {
      assert b in offenders <==> Heavy(p0, locals, slots, b);
      if Heavy(p0, locals, slots, b) {
        var i :| 0 <= i < |offenders| && offenders[i] == b;
      } else {
        assert b in p0;
      }
    }
    forall a | a in Trimmed(p0, p) ensures a !in locals && Len(p, a) == level && offenders != [] {
      TrimmedIsOffender(p0, p, locals, slots, offenders, {}, a);
      var i :| 0 <= i < |offenders| && offenders[i] == a;
    }
  }

  /** The counting loops over all lists. */
  method CountAll(m: Accounts) returns (n: nat)
    ensures n == Total(m)
  {
    n := 0;
    var rest := m;
    while rest != map[]
      invariant n + Total(rest) == Total(m)
      decreases |rest|
    {
      var a :| a in rest;
      TotalRemove(rest, a);
      n := n + |rest[a]|;
      rest := rest - {a};
    }
  }

  lemma {:induction false} LongestExists(p: Accounts, s: set<Address>) returns (a: Address)
    requires s != {}
    ensures a in s && forall b :: b in s ==> Len(p, b) <= Len(p, a)
    decreases |s|
  {
    a :| a in s;
    var t := s - {a};
    assert s == t + {a};
    if t != {} {
      var c := LongestExists(p, t);
      a := if Len(p, a) < Len(p, c) then c else a;
    }
  }

  /** The priority queue's `Pop`: some account whose list is longest. */
  method PopLongest(p: Accounts, s: set<Address>) returns (a: Address)
    requires s != {}
    ensures a in s && forall b :: b in s ==> Len(p, b) <= Len(p, a)
  {
    ghost var w := LongestExists(p, s);
    a :| a in s && forall b :: b in s ==> Len(p, b) <= Len(p, a);
  }

  lemma PoppingStart(p: Accounts, locals: set<Address>, slots: nat, left: set<Address>)
    requires forall a :: a in left <==> Heavy(p, locals, slots, a)
    ensures Popping(p, p, locals, slots, [], left)
  {
    forall a | a in p ensures p[a] == Capped(p[a], |p[a]|) {
    }
  }

  /** Every offender is long enough to be cut. */
  lemma GroupCuttable(p0: Accounts, p: Accounts, locals: set<Address>, slots: nat,
                      offenders: seq<Address>, left: set<Address>, level: nat)
    requires Popping(p0, p, locals, slots, offenders, left) && Levelled(p0, p, slots, offenders, left, level)
    requires |offenders| > 1 && slots > 0
    ensures var group := offenders[..|offenders| - 1];
      Distinct(group) && forall a :: a in group ==> a in p && Len(p, a) == level && level > 1
  {
    hide CutFrom, Capped;
    var group := offenders[..|offenders| - 1];
    forall a | a in group ensures a in p && Len(p, a) == level && level > 1 {
      var i :| 0 <= i < |group| && group[i] == a;
      assert Len(p, offenders[i]) == level;
      assert At(p, a) != map[];
    }
  }

  lemma SweptTotal(p: Accounts, p': Accounts, addrs: seq<Address>)
    requires Swept(p, p', addrs, |addrs|)
    ensures Total(p') == Total(p) - |addrs| && p'.Keys == p.Keys
  {
  }

  lemma ClosePopping(p0: Accounts, p: Accounts, p': Accounts, locals: set<Address>, slots: nat,
                     offenders: seq<Address>, left: set<Address>, addrs: seq<Address>, globalSlots: nat)
    requires Popping(p0, p, locals, slots, offenders, left) && Swept(p, p', addrs, |addrs|) && Distinct(addrs)
    requires Total(p) > globalSlots && forall a :: a in addrs ==> a in p
    ensures Close(p0, p', globalSlots)
  {
    SweptCutFrom(p0, p, p', addrs);
    SweptClose(p0, p, p', addrs, globalSlots);
  }

  lemma FlatLast(p: Accounts, addrs: seq<Address>, level: nat)
    requires Flat(p, addrs, level) && |addrs| > 0
    ensures Len(p, addrs[|addrs| - 1]) == level
  {
  }

  lemma FlatCuttable(p: Accounts, addrs: seq<Address>, level: nat)
    requires Flat(p, addrs, level)
    ensures forall a :: a in addrs ==> Len(p, a) == level && (level > 0 ==> a in p)
  {
    forall a | a in addrs ensures Len(p, a) == level && (level > 0 ==> a in p) {
      var i :| 0 <= i < |addrs| && addrs[i] == a;
      assert level > 0 ==> At(p, a) != map[];
    }
  }

  lemma NotTruncated(p: Accounts, locals: set<Address>, slots: nat, globalSlots: nat)
    requires Total(p) <= globalSlots
    ensures Truncated(p, p, locals, slots, globalSlots)
  {
    PoppingStart(p, locals, slots, set a | a in p && Heavy(p, locals, slots, a));
  }

  lemma TruncationStart(p: Accounts, locals: set<Address>, slots: nat, globalSlots: nat, left: set<Address>)
    requires Total(p) > globalSlots
    requires left == set a | a in p && a !in locals && |p[a]| > slots
    ensures Popping(p, p, locals, slots, [], left) && Levelled(p, p, slots, [], left, 0)
    ensures Close(p, p, globalSlots)
  {
    PoppingStart(p, locals, slots, left);
  }

  /** When all have been popped and levelled, all offenders are equally long. */
  lemma LevelIsFlat(p0: Accounts, p: Accounts, locals: set<Address>, slots: nat, offenders: seq<Address>, level: nat)
    requires Popping(p0, p, locals, slots, offenders, {}) && Levelled(p0, p, slots, offenders, {}, level)
    requires |offenders| > 0 && level == Len(p, offenders[|offenders| - 1])
    ensures Flat(p, offenders, level) && slots <= level
  {
  }

  /** The queues of remote accounts. */
  ghost function Remote(m: Accounts, locals: set<Address>): Accounts {
    map a | a in m && a !in locals :: m[a]
  }

  function Beat(beats: map<Address, int>, a: Address): int {
    if a in beats then beats[a] else 0
  }

  /** How `truncateQueue` leaves the queue: as many transactions go as are too many, or as remote
      accounts have; each list loses its top; and the accounts that were active last lose first. */
  ghost predicate QueueTruncated(q0: Accounts, q: Accounts, locals: set<Address>, limit: nat,
                                 beats: map<Address, int>)
  {
    && Total(q) == Total(q0) - Min(if Total(q0) > limit then Total(q0) - limit else 0, Total(Remote(q0, locals)))
    && (Total(q) <= limit || forall a :: a in q ==> a in locals)
    && (forall a :: Len(q, a) <= Len(q0, a) && At(q, a) == Capped(At(q0, a), Len(q, a)))
    && (forall a :: a in locals ==> At(q, a) == At(q0, a))
    && (forall a, b :: At(q, a) != At(q0, a) && b in q && b !in locals && b != a ==> Beat(beats, b) <= Beat(beats, a))
  }

  lemma TotalWith(m: Accounts, a: Address, l: List)
    ensures Total(With(m, a, l)) == Total(m) - Len(m, a) + |l|
  {
    if |l| == 0 {
      if a in m {
        TotalRemove(m, a);
      } else {
        assert m - {a} == m;
      }
    } else {
      TotalUpdate(m, a, l);
    }
  }

  lemma RemoteWith(m: Accounts, a: Address, l: List, locals: set<Address>)
    requires a !in locals
    ensures Remote(With(m, a, l), locals) == With(Remote(m, locals), a, l)
    ensures At(Remote(m, locals), a) == At(m, a)
  {
    RemoteKeys(m, a, l, locals);
    var r, w := Remote(With(m, a, l), locals), With(Remote(m, locals), a, l);
    assert r == w;
  }

  lemma RemoteKeys(m: Accounts, a: Address, l: List, locals: set<Address>)
    requires a !in locals
    ensures Remote(With(m, a, l), locals).Keys == With(Remote(m, locals), a, l).Keys
  {
  }

  /** Halfway through `truncateQueue`: `drop` more are to go, all from remote accounts. */
  ghost predicate Emptied(q0: Accounts, q: Accounts, locals: set<Address>, drop: nat, overflow: nat) {
    && drop <= overflow && Total(q) == Total(q0) - (overflow - drop)
    && Total(q0) - Total(q) == Total(Remote(q0, locals)) - Total(Remote(q, locals))
    && (forall a :: Len(q, a) <= Len(q0, a) && At(q, a) == Capped(At(q0, a), Len(q, a)))
    && (forall a :: a in locals ==> At(q, a) == At(q0, a))
  }

  /** Of the remote accounts only those in `left`, by heartbeat, still have anything queued. */
  ghost predicate InLine(q0: Accounts, q: Accounts, locals: set<Address>, left: seq<Address>, drop: nat,
                         beats: map<Address, int>)
  {
    && Distinct(left)
    && (forall a :: a in left ==> a in q && a !in locals && At(q, a) == At(q0, a))
    && (forall a :: a in q && a !in locals ==> a in left || drop == 0)
    && (forall a, b :: At(q, a) != At(q0, a) && b in q && b !in locals && b != a ==> Beat(beats, b) <= Beat(beats, a))
    && (forall i, j :: 0 <= i < j < |left| ==> Beat(beats, left[i]) <= Beat(beats, left[j]))
  }

  ghost predicate Emptying(q0: Accounts, q: Accounts, locals: set<Address>, left: seq<Address>, drop: nat,
                           overflow: nat, beats: map<Address, int>)
  {
    Emptied(q0, q, locals, drop, overflow) && InLine(q0, q, locals, left, drop, beats)
  }

  lemma EmptiedStep(q0: Accounts, q: Accounts, locals: set<Address>, drop: nat, overflow: nat, a: Address, k: nat)
    requires Emptied(q0, q, locals, drop, overflow) && a !in locals && k <= Len(q, a) && Len(q, a) - k <= drop
    ensures Emptied(q0, With(q, a, Capped(At(q, a), k)), locals, drop - (Len(q, a) - k), overflow)
  {
    hide Capped, Total, Remote, With;
    var l := Capped(At(q, a), k);
    CappedWithin(At(q, a), k);
    TotalWith(q, a, l);
    RemoteWith(q, a, l, locals);
    TotalWith(Remote(q, locals), a, l);
    WithAts(q, a, l);
    CappedAgain(At(q0, a), Len(q, a), k);
  }

  lemma InLineStep(q0: Accounts, q: Accounts, locals: set<Address>, left: seq<Address>, drop: nat,
                   beats: map<Address, int>, l: List, drop': nat)
    requires InLine(q0, q, locals, left, drop, beats) && |left| > 0 && drop > 0
    requires |l| > 0 ==> drop' == 0
    ensures InLine(q0, With(q, left[|left| - 1], l), locals, left[..|left| - 1], drop', beats)
  {
    hide With, Beat;
    var a := left[|left| - 1];
    var q', left' := With(q, a, l), left[..|left| - 1];
    WithAts(q, a, l);
    assert left == left' + [a];
    assert a !in left';
    WithKeys(q, a, l);
    forall b | b in q' && b !in locals ensures b == a || b in left' {
      assert b in q;
    }
    forall b | b in left' ensures b in q' {
      WithOthers(q, a, l);
    }
    InLineOrder(left, beats);
  }

  lemma InLineOrder(left: seq<Address>, beats: map<Address, int>)
    requires |left| > 0 && forall i, j :: 0 <= i < j < |left| ==> Beat(beats, left[i]) <= Beat(beats, left[j])
    ensures forall b :: b in left[..|left| - 1] ==> Beat(beats, b) <= Beat(beats, left[|left| - 1])
  {
    var left' := left[..|left| - 1];
    forall b | b in left' ensures Beat(beats, b) <= Beat(beats, left[|left| - 1]) {
      var i :| 0 <= i < |left'| && left'[i] == b;
      assert left[i] == b;
    }
  }

  /** One turn: the last account in line is cut down to `k`. */
  lemma EmptyingStep(q0: Accounts, q: Accounts, locals: set<Address>, left: seq<Address>, drop: nat, overflow: nat,
                     beats: map<Address, int>, k: nat)
    requires Emptying(q0, q, locals, left, drop, overflow, beats) && |left| > 0 && drop > 0
    requires var a := left[|left| - 1];
      k <= Len(q, a) && Len(q, a) - k <= drop && (k > 0 ==> Len(q, a) - k == drop)
    ensures var a := left[|left| - 1];
      Emptying(q0, With(q, a, Capped(At(q, a), k)), locals, left[..|left| - 1], drop - (Len(q, a) - k), overflow, beats)
  {
    hide Capped, Emptied, With;
    var a := left[|left| - 1];
    CappedWithin(At(q, a), k);
    EmptiedStep(q0, q, locals, drop, overflow, a, k);
    InLineStep(q0, q, locals, left, drop, beats, Capped(At(q, a), k), drop - (Len(q, a) - k));
  }

  lemma EmptyingDone(q0: Accounts, q: Accounts, locals: set<Address>, left: seq<Address>, drop: nat,
                     beats: map<Address, int>, limit: nat)
    requires Total(q0) > limit && Emptying(q0, q, locals, left, drop, Total(q0) - limit, beats)
    requires drop == 0 || left == []
    ensures QueueTruncated(q0, q, locals, limit, beats)
  {
    hide Capped, Total, At, Beat, Remote;
    if drop > 0 { NoRemotes(q, locals); }
  }

  lemma NoRemotes(q: Accounts, locals: set<Address>)
    requires forall a :: a in q ==> a in locals
    ensures Total(Remote(q, locals)) == 0
  {
    assert Remote(q, locals) == map[];
  }

  lemma QueueFits(q: Accounts, locals: set<Address>, limit: nat, beats: map<Address, int>)
    requires Total(q) <= limit
    ensures QueueTruncated(q, q, locals, limit, beats)
  {
    forall a ensures At(q, a) == Capped(At(q, a), Len(q, a)) {
    }
  }

  /** The remote accounts with queued transactions, least recently active first. */
  method ByHeartbeat(q: Accounts, locals: set<Address>, beats: map<Address, int>) returns (s: seq<Address>)
    ensures Distinct(s) && forall a :: a in s <==> a in q && a !in locals
    ensures forall i, j :: 0 <= i < j < |s| ==> Beat(beats, s[i]) <= Beat(beats, s[j])
  {
    s := Listed(q.Keys - locals);
    var key := (a: Address) => Beat(beats, a);
    s := Sorting.SortBy(s, key);
    SortedOnce(s, q.Keys - locals);
    forall i, j | 0 <= i < j < |s| ensures Beat(beats, s[i]) <= Beat(beats, s[j]) {
      assert key(s[i]) <= key(s[j]);
    }
  }

  method Listed(keys: set<Address>) returns (s: seq<Address>)
    ensures multiset(s) == multiset(keys)
  {
    s := [];
    var todo := keys;
    while todo != {}
      invariant todo <= keys && multiset(s) == multiset(keys - todo)
      decreases |todo|
    {
      var a :| a in todo;
      assert keys - (todo - {a}) == (keys - todo) + {a};
      todo := todo - {a};
      s := s + [a];
    }
  }

  lemma SortedOnce(s: seq<Address>, keys: set<Address>)
    requires multiset(s) == multiset(keys)
    ensures Distinct(s) && forall a :: a in s <==> a in keys
  {
    forall a ensures a in s <==> a in keys {
      assert a in s <==> a in multiset(s);
    }
    forall i, j | 0 <= i < j < |s| ensures s[i] != s[j] {
      if s[i] == s[j] {
        Twice(s, i, j);
        assert false;
      }
    }
  }

  lemma EmptyingStart(q: Accounts, locals: set<Address>, left: seq<Address>, drop: nat, beats: map<Address, int>)
    requires Distinct(left) && forall a :: a in left <==> a in q && a !in locals
    requires forall i, j :: 0 <= i < j < |left| ==> Beat(beats, left[i]) <= Beat(beats, left[j])
    ensures Emptying(q, q, locals, left, drop, drop, beats)
  {
    forall a ensures At(q, a) == Capped(At(q, a), Len(q, a)) {
    }
  }

  lemma LastInLine(q0: Accounts, q: Accounts, locals: set<Address>, left: seq<Address>, drop: nat, overflow: nat,
                   beats: map<Address, int>)
    requires Emptying(q0, q, locals, left, drop, overflow, beats) && |left| > 0
    ensures left[|left| - 1] in q && left[|left| - 1] !in locals
  {
    assert left[|left| - 1] in left;
  }

  lemma CappedNone(l: List)
    ensures Capped(l, 0) == map[]
  {
    CappedWithin(l, 0);
    assert |Capped(l, 0)| == 0;
  }
}

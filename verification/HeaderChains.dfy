/** `HeaderChain`: headers with their total difficulties, the canonical number-to-hash index and
    the current header. */
module HeaderChains {
  import opened Types
  import opened Chains

  /** Headers that follow one another, as validation leaves them. */
  ghost predicate Linked(hs: seq<Block>) {
    && (forall i :: 0 <= i < |hs| ==> hs[i].hash != NO_HASH && hs[i].difficulty >= 1)
    && forall i :: 0 < i < |hs| ==> hs[i].parent == hs[i - 1].hash && hs[i].number == hs[i - 1].number + 1
  }

  /** Equal hashes mean equal headers. */
  ghost predicate NoCollision(s: Store, hs: seq<Block>) {
    && (forall i :: 0 <= i < |hs| && hs[i].hash in s ==> s[hs[i].hash] == hs[i])
    && forall i, j :: 0 <= i < |hs| && 0 <= j < |hs| && hs[i].hash == hs[j].hash ==> hs[i] == hs[j]
  }

  /** The headers can be attached: the first one's parent is known. */
  ghost predicate Attachable(s: Store, hs: seq<Block>) {
    && Closed(s) && Weighty(s) && Linked(hs) && NoCollision(s, hs) && |hs| > 0
    && hs[0].parent in s && s[hs[0].parent].number == hs[0].number - 1
  }

  /** The store once all of `hs` are in. */
  ghost function Joined(s: Store, hs: seq<Block>): Store {
    if hs == [] then s else Joined(s, hs[..|hs| - 1])[hs[|hs| - 1].hash := hs[|hs| - 1]]
  }

  /** The parent of the `i`th header; the last header when `i` is their number. */
  function Before(hs: seq<Block>, i: nat): Hash
    requires |hs| > 0 && i <= |hs|
  {
    if i == 0 then hs[0].parent else hs[i - 1].hash
  }

  lemma {:induction false} LinkedNumbers(hs: seq<Block>, i: nat)
    requires Linked(hs) && i < |hs|
    ensures hs[i].number == hs[0].number + i && hs[i].parent == Before(hs, i)
  {
    if i > 0 { LinkedNumbers(hs, i - 1); }
  }

  lemma AddOne(s: Store, b: Block)
    requires Closed(s) && Weighty(s) && b.hash != NO_HASH && b.difficulty >= 1 && (b.hash in s ==> s[b.hash] == b)
    requires b.number > 0 && b.parent in s && s[b.parent].number == b.number - 1
    ensures Extends(s[b.hash := b], s) && Weighty(s[b.hash := b])
  {
    hide Closed;
    StoredClosed(s, b);
  }

  /** What the store holds while headers come in. */
  lemma {:induction false} JoinedHolds(s: Store, hs: seq<Block>, i: nat)
    requires NoCollision(s, hs) && i <= |hs|
    ensures var t := Joined(s, hs[..i]);
      && (forall h :: h in t ==> (h in s && t[h] == s[h]) || exists j :: 0 <= j < i && hs[j].hash == h && t[h] == hs[j])
      && (forall h :: h in s ==> h in t && t[h] == s[h])
      && (forall j :: 0 <= j < i ==> hs[j].hash in t && t[hs[j].hash] == hs[j])
  {
    if i > 0 {
      JoinedHolds(s, hs, i - 1);
      assert hs[..i][..i - 1] == hs[..i - 1];
    }
  }

  /** The store stays parent-closed while headers come in. */
  lemma {:induction false} JoinedClosed(s: Store, hs: seq<Block>, i: nat)
    requires Attachable(s, hs) && i <= |hs|
    ensures var t := Joined(s, hs[..i]);
      Extends(t, s) && Weighty(t) && Before(hs, i) in t && t[Before(hs, i)].number == hs[0].number - 1 + i
  {
    hide Closed, Weighty, NoCollision;
    if i > 0 {
      JoinedClosed(s, hs, i - 1);
      LinkedNumbers(hs, i - 1);
      JoinedStep(s, hs, i - 1);
      AddOne(Joined(s, hs[..i - 1]), hs[i - 1]);
    }
  }

  lemma JoinedStep(s: Store, hs: seq<Block>, i: nat)
    requires NoCollision(s, hs) && i < |hs|
    ensures var t, b := Joined(s, hs[..i]), hs[i];
      (b.hash in t ==> t[b.hash] == b) && Joined(s, hs[..i + 1]) == t[b.hash := b]
  {
    assert hs[..i + 1][..i] == hs[..i];
    JoinedHolds(s, hs, i);
  }

  /** One header adds its difficulty to its parent's total. */
  lemma JoinedTotal(s: Store, hs: seq<Block>, i: nat)
    requires Attachable(s, hs) && i < |hs|
    ensures var t, u := Joined(s, hs[..i]), Joined(s, hs[..i + 1]);
      && u == t[hs[i].hash := hs[i]] && Extends(t, s) && Extends(u, t) && Extends(u, s)
      && Before(hs, i) in t && hs[i].hash in u
      && TotalDifficulty(u, hs[i].hash) == TotalDifficulty(t, Before(hs, i)) + hs[i].difficulty
  {
    hide Joined, OneGenesis, NoCollision, Linked;
    JoinedClosed(s, hs, i);
    JoinedClosed(s, hs, i + 1);
    JoinedStep(s, hs, i);
    LinkedNumbers(hs, i);
    SameTotal(Joined(s, hs[..i]), Joined(s, hs[..i + 1]), Before(hs, i));
  }

  /** Of linked headers, those already known come first. */
  lemma KnownFirst(s: Store, hs: seq<Block>, i: nat)
    requires Attachable(s, hs) && 0 < i < |hs| && hs[i].hash in s
    ensures hs[i - 1].hash in s
  {
  }

  ghost predicate Contains(s: Store, hs: seq<Block>) {
    forall j :: 0 <= j < |hs| ==> hs[j].hash in s && s[hs[j].hash] == hs[j]
  }

  /** The last header's chain runs through all the others. */
  lemma {:induction false} ThroughAll(s: Store, hs: seq<Block>, i: nat)
    requires Attachable(s, hs) && i <= |hs| && Contains(s, hs)
    ensures hs[|hs| - 1].number == hs[0].number - 1 + |hs|
    ensures Ancestor(s, hs[|hs| - 1].hash, hs[0].number - 1 + i) == Before(hs, i)
    decreases |hs| - i
  {
    hide OneGenesis, NoCollision, Linked;
    LinkedNumbers(hs, |hs| - 1);
    if i < |hs| {
      ThroughAll(s, hs, i + 1);
      LinkedNumbers(hs, i);
      AncestorTransitive(s, hs[|hs| - 1].hash, hs[0].number + i, hs[0].number - 1 + i);
    }
  }

  datatype NumberHash = NumberHash(number: nat, hash: Hash)

  /** The entries for the headers from the `k`th on. */
  ghost function EntriesFrom(hs: seq<Block>, k: nat): (entries: seq<NumberHash>)
    requires k <= |hs|
    ensures |entries| == |hs| - k
  {
    seq(|hs| - k, j requires 0 <= j < |hs| - k => NumberHash(hs[k + j].number, hs[k + j].hash))
  }

  /** The first `k` headers are known, the others are not. */
  ghost predicate SplitAt(s: Store, hs: seq<Block>, k: nat) {
    k <= |hs| && forall j :: 0 <= j < |hs| ==> (hs[j].hash in s <==> j < k)
  }

  lemma OneBack(s: Store, h: Hash, n: nat)
    requires Closed(s) && h in s && 0 < n <= s[h].number
    ensures s[Ancestor(s, h, n)].parent == Ancestor(s, h, n - 1)
  {
    AncestorTransitive(s, h, n, n - 1);
  }

  /** Puts the chain of `start` into the index, walking back until the stored index agrees. */
  method RewriteBack(headers: Store, canon: map<nat, Hash>, written: map<nat, Hash>, start: Hash, ghost head: Hash)
    returns (rewritten: map<nat, Hash>)
    requires Closed(headers) && start in headers && head in headers && canon == CanonOf(headers, head)
    requires forall n :: n in canon && n <= headers[start].number ==> n in written && written[n] == canon[n]
    ensures forall n: nat :: n <= headers[start].number ==>
      n in rewritten && rewritten[n] == Ancestor(headers, start, n)
    ensures forall n :: n > headers[start].number ==>
      (n in rewritten <==> n in written) && (n in written ==> rewritten[n] == written[n])
  {
    hide Closed, Ancestor;
    rewritten := written;
    var headHash, headNumber := start, headers[start].number;
    StartsThere(headers, start);
    while Canonical(canon, headNumber) != headHash
      invariant 0 <= headNumber <= headers[start].number && headHash == Ancestor(headers, start, headNumber)
      invariant forall n: nat :: headNumber < n <= headers[start].number ==>
        n in rewritten && rewritten[n] == Ancestor(headers, start, n)
      invariant forall n :: n <= headNumber || n > headers[start].number ==>
        (n in rewritten <==> n in written) && (n in written ==> rewritten[n] == written[n])
      decreases headNumber
    {
      Genesis(headers, start, head);
      rewritten := rewritten[headNumber := headHash];
      OneBack(headers, start, headNumber);
      headHash, headNumber := headers[headHash].parent, headNumber - 1;
    }
    forall n: nat | n <= headNumber ensures n in rewritten && rewritten[n] == Ancestor(headers, start, n) {
      MeetingChains(headers, start, head, headNumber, n);
    }
  }

  /** Two indexes have the same entries outside a range of numbers. */
  ghost predicate SameOutside(w: map<nat, Hash>, v: map<nat, Hash>, lo: nat, hi: nat) {
    forall n :: n < lo || n >= hi ==> (n in w <==> n in v) && (n in v ==> w[n] == v[n])
  }

  /** The entries of the headers from `lo` to `hi` are in the index. */
  ghost predicate Entered(w: map<nat, Hash>, hs: seq<Block>, lo: nat, hi: nat) {
    forall j :: lo <= j < hi && j < |hs| ==> hs[j].number in w && w[hs[j].number] == hs[j].hash
  }

  /** Writes the entries of the known headers before the first inserted one, if there is one. */
  method WriteKnown(written: map<nat, Hash>, hs: seq<Block>, firstInserted: int) returns (w: map<nat, Hash>)
    requires Linked(hs) && |hs| > 0 && firstInserted <= |hs|
    ensures var k := if firstInserted < 0 then 0 else firstInserted;
      Entered(w, hs, 0, k) && SameOutside(w, written, hs[0].number, hs[0].number + k)
  {
    w := written;
    var i := 0;
    while i < firstInserted
      invariant 0 <= i && (i <= firstInserted || i == 0)
      invariant Entered(w, hs, 0, i) && SameOutside(w, written, hs[0].number, hs[0].number + i)
    {
      AllNumbers(hs);
      w := w[hs[i].number := hs[i].hash];
      i := i + 1;
    }
  }

  /** Writes the entries of the inserted headers. */
  method WriteInserted(written: map<nat, Hash>, inserted: seq<NumberHash>, ghost hs: seq<Block>, ghost k: nat)
    returns (w: map<nat, Hash>)
    requires Linked(hs) && |hs| > 0 && k <= |hs| && inserted == EntriesFrom(hs, k)
    ensures Entered(w, hs, k, |hs|) && SameOutside(w, written, hs[0].number + k, hs[0].number + |hs|)
  {
    w := written;
    for i := 0 to |inserted|
      invariant Entered(w, hs, k, k + i) && SameOutside(w, written, hs[0].number + k, hs[0].number + k + i)
    {
      AllNumbers(hs);
      w := w[inserted[i].number := inserted[i].hash];
    }
  }

  lemma AllNumbers(hs: seq<Block>)
    requires Linked(hs)
    ensures forall j :: 0 <= j < |hs| ==> hs[j].number == hs[0].number + j
  {
    forall j | 0 <= j < |hs| ensures hs[j].number == hs[0].number + j {
      LinkedNumbers(hs, j);
    }
  }

  datatype WriteStatus = NonStat | SideStat | CanonStat

  datatype WriteResult =
    | Empty | UnknownAncestor | Aborted
    | Written(status: WriteStatus, ignored: nat, imported: nat, lastHash: Hash, lastHeader: Block)

  class HeaderChain {
    var headers: Store
    var tds: map<Hash, nat>
    var canon: map<nat, Hash>
    var currentHash: Hash
    var current: Block

    /** The stored headers are parent-closed and have their total difficulties. */
    ghost predicate Stored()
      reads this
    {
      && Closed(headers) && Weighty(headers)
      && tds.Keys == headers.Keys && (forall h :: h in headers ==> tds[h] == TotalDifficulty(headers, h))
      && currentHash in headers && current == headers[currentHash]
    }

    /** The index is exactly the chain of the current header, and no header stored is heavier. */
    ghost predicate Valid()
      reads this
    {
      Stored() && canon == CanonOf(headers, currentHash) && forall h :: h in headers ==> tds[h] <= tds[currentHash]
    }

    constructor (genesis: Block)
      requires genesis.hash != NO_HASH && genesis.number == 0 && genesis.parent == NO_HASH
      ensures Valid() && headers == map[genesis.hash := genesis] && current == genesis
    {
      headers := map[genesis.hash := genesis];
      tds := map[genesis.hash := genesis.difficulty];
      canon := map[0 := genesis.hash];
      currentHash, current := genesis.hash, genesis;
    }

    /** Writes linked headers and makes them the current chain if they are heavier, or as heavy
        and shorter, or as heavy and long and the coin says so. */
    method WriteHeaders(hs: seq<Block>, interrupted: bool, coin: bool) returns (r: WriteResult)
      requires Valid() && Linked(hs) && NoCollision(headers, hs)
      modifies this
      ensures r.Empty? <==> hs == []
      ensures r.UnknownAncestor? <==> hs != [] && Read(old(headers), hs[0].parent, hs[0].number - 1).None?
      ensures r.Aborted? ==> interrupted
      ensures !r.Written? ==>
        Valid() && headers == old(headers) && tds == old(tds) && canon == old(canon) && current == old(current)
      ensures r.Written? ==> !interrupted && Stored() && headers == Joined(old(headers), hs) && Contains(headers, hs)
      ensures r.Written? ==>
        var last, switched := hs[|hs| - 1], Switches(headers, hs[|hs| - 1].hash, old(currentHash), coin);
        && currentHash == (if switched then last.hash else old(currentHash))
        && (AnyNew(old(headers), hs) ==> Valid())
        && (!AnyNew(old(headers), hs) ==> (Valid() <==> !switched || last.hash == old(currentHash)))
        && r.status == (if !AnyNew(old(headers), hs) then NonStat else if switched then CanonStat else SideStat)
        && r.lastHeader == last && r.lastHash == last.hash
        && SplitAt(old(headers), hs, r.ignored) && r.ignored + r.imported == |hs|
      ensures r.Written? ==>
        var last, head := hs[|hs| - 1], old(current).number;
        && Closed(headers) && last.hash in headers && old(currentHash) in headers
        && var newTD, localTD := TotalDifficulty(headers, last.hash), TotalDifficulty(headers, old(currentHash));
        && (newTD > localTD ==> currentHash == last.hash)
        && (newTD < localTD ==> currentHash == old(currentHash))
        && (newTD == localTD && last.number < head ==> currentHash == last.hash)
        && (newTD == localTD && last.number > head ==> currentHash == old(currentHash))
        && (newTD == localTD && last.number == head ==> currentHash == if coin then last.hash else old(currentHash))
    {
      hide Closed, Linked, NoCollision, Weighty, TotalDifficulty, Joined, CanonOf, EntriesFrom, Contains, SplitAt,
        Prepared;
      if |hs| == 0 { return Empty; }
      if Read(headers, hs[0].parent, hs[0].number - 1).None? { return UnknownAncestor; }
      var last := hs[|hs| - 1];
      var headers', tds', newTD, inserted, firstInserted := Prepare(hs, tds[hs[0].parent]);
      if interrupted { return Aborted; }
      AllPrepared(headers, hs, headers', tds', newTD, currentHash);
      KnownIsLight(headers, hs, tds, newTD, currentHash, firstInserted);
      headers, tds := headers', tds';
      LastContained(headers, hs);
      SwitchesWhen(headers, last.hash, currentHash, coin);
      var status := Choose(hs, newTD, inserted, firstInserted, coin, old(headers));
      if |inserted| == 0 { status := NonStat; }
      r := Written(status, |hs| - |inserted|, |inserted|, last.hash, last);
    }

    /** Finds an ancestor by hash and number: jumps as soon as it meets the index, and gives up
        after `maxNonCanonical` single steps. */
    method GetAncestor(hash: Hash, number: nat, ancestor: nat, maxNonCanonical: nat)
      returns (h: Hash, n: nat, left: nat)
      requires Valid()
      ensures hash != NO_HASH && h != NO_HASH ==>
        Walk(headers, hash, number, ancestor) == Some(h) && n == number - ancestor
      ensures hash != NO_HASH ==>
        var steps := if ancestor == 1 then 0 else OffIndex(headers, canon, hash, number, ancestor);
        && (h == NO_HASH <==>
              ancestor > number || Walk(headers, hash, number, ancestor).None? || steps > maxNonCanonical)
        && (h != NO_HASH ==> left == maxNonCanonical - steps)
        && (h == NO_HASH ==> n == 0)
    {
      hide Closed, TotalDifficulty, Weighty, CanonOf;
      var hash', number', ancestor' := hash, number, ancestor;
      left := maxNonCanonical;
      if ancestor > number { return NO_HASH, 0, left; }
      ParentsStored(headers);
      if ancestor == 1 {
        var header := Read(headers, hash, number);
        if header.Some? { return header.value.parent, number - 1, left; }
        return NO_HASH, 0, left;
      }
      while ancestor' != 0
        invariant 0 <= ancestor' <= number' && number' - ancestor' == number - ancestor && left <= maxNonCanonical
        invariant hash != NO_HASH ==> hash' != NO_HASH
        invariant Walk(headers, hash, number, ancestor) == Walk(headers, hash', number', ancestor')
        invariant hash != NO_HASH ==>
          OffIndex(headers, canon, hash, number, ancestor)
          == maxNonCanonical - left + OffIndex(headers, canon, hash', number', ancestor')
        decreases ancestor'
      {
        if Canonical(canon, number') == hash' {
          if hash != NO_HASH { JumpIsWalk(headers, canon, currentHash, hash', number', ancestor'); }
          return Canonical(canon, number' - ancestor'), number' - ancestor', left;
        }
        if left == 0 { return NO_HASH, 0, left; }
        left, ancestor' := left - 1, ancestor' - 1;
        var header := Read(headers, hash', number');
        if header.None? { return NO_HASH, 0, left; }
        hash', number' := header.value.parent, number' - 1;
      }
      h, n := hash', number';
    }

    /** Makes the stored headers the current chain if they beat it. */
    method Choose(hs: seq<Block>, newTD: nat, inserted: seq<NumberHash>, firstInserted: int, coin: bool, ghost s: Store)
      returns (status: WriteStatus)
      requires Stored() && Attachable(headers, hs) && Contains(headers, hs) && newTD == tds[hs[|hs| - 1].hash]
      requires canon == CanonOf(headers, currentHash)
      requires forall h :: h in headers ==> tds[h] <= tds[currentHash] || tds[h] <= newTD
      requires -1 <= firstInserted < |hs| && (firstInserted < 0 ==> newTD <= tds[currentHash])
      requires hs[0].parent == currentHash ==> firstInserted == 0
      requires inserted == EntriesFrom(hs, if firstInserted < 0 then |hs| else firstInserted)
      modifies this`canon, this`current, this`currentHash
      ensures var last, switched := hs[|hs| - 1], Switches(headers, hs[|hs| - 1].hash, old(currentHash), coin);
        && currentHash == (if switched then last.hash else old(currentHash))
        && status == (if switched then CanonStat else SideStat)
        && (firstInserted >= 0 ==> Valid())
        && (firstInserted < 0 ==> (Valid() <==> !switched || last.hash == old(currentHash)))
      ensures Stored()
    {
      hide Closed, Linked, NoCollision, Weighty, TotalDifficulty, CanonOf, EntriesFrom, Led, Unmoved;
      var last := hs[|hs| - 1];
      var head, localTD := current.number, tds[currentHash];
      var reorg := newTD > localTD || (newTD == localTD && (last.number < head || (last.number == head && coin)));
      status := SideStat;
      assert headers[last.hash] == last;
      if reorg {
        MarkCanonical(hs, firstInserted, inserted);
        if firstInserted < 0 {
          NotEntered(headers, hs, old(canon), canon, currentHash);
        }
        currentHash, current := last.hash, last;
        status := CanonStat;
      }
    }

    /** Rewrites the index for a switch to the chain of the last of `hs`. */
    method MarkCanonical(hs: seq<Block>, firstInserted: int, inserted: seq<NumberHash>)
      requires Attachable(headers, hs) && Contains(headers, hs)
      requires currentHash in headers && canon == CanonOf(headers, currentHash)
      requires -1 <= firstInserted < |hs|
      requires inserted == EntriesFrom(hs, if firstInserted < 0 then |hs| else firstInserted)
      requires hs[0].parent == currentHash ==> firstInserted == 0
      modifies this`canon
      ensures firstInserted >= 0 ==> canon == CanonOf(headers, hs[|hs| - 1].hash)
      ensures firstInserted < 0 ==> Led(headers, canon, hs) && Unmoved(old(canon), canon, hs)
    {
      hide Closed, Linked, NoCollision, Weighty, Ancestor, SameOutside, Led, Unmoved, Entered, CanonOf, EntriesFrom;
      ghost var k := if firstInserted < 0 then |hs| else firstInserted;
      var written := canon;
      if hs[0].parent != currentHash {
        written := Detour(headers, canon, hs, currentHash);
      } else {
        OnTheSpot(headers, hs);
      }
      ghost var detoured := written;
      NothingEntered(written, hs);
      if hs[0].parent != currentHash {
        written := WriteKnown(written, hs, firstInserted);
      }
      ghost var known := written;
      written := WriteInserted(written, inserted, hs, k);
      canon := written;
      if firstInserted >= 0 {
        SplicedIsCanon(headers, hs, k, detoured, known, written);
      } else {
        SameAll(known, detoured, hs[0].number);
        SameAll(written, known, hs[0].number + |hs|);
      }
    }

    /** Computes the stored headers and difficulties with `hs` added. */
    method Prepare(hs: seq<Block>, ptd: nat)
      returns (headers': Store, tds': map<Hash, nat>, newTD: nat, inserted: seq<NumberHash>, firstInserted: int)
      requires Stored() && Attachable(headers, hs) && ptd == tds[hs[0].parent]
      ensures Prepared(headers, hs, |hs|, headers', tds', newTD)
      ensures -1 <= firstInserted < |hs|
      ensures SplitAt(headers, hs, if firstInserted < 0 then |hs| else firstInserted)
      ensures inserted == EntriesFrom(hs, if firstInserted < 0 then |hs| else firstInserted)
    {
      hide Closed, Weighty, NoCollision, Linked, Prepared, SplitAt;
      headers', tds', newTD, inserted, firstInserted := headers, tds, ptd, [], -1;
      NonePrepared(headers, hs, tds);
      for i := 0 to |hs|
        invariant Prepared(headers, hs, i, headers', tds', newTD)
        invariant -1 <= firstInserted < i
        invariant SplitAt(headers, hs[..i], if firstInserted < 0 then i else firstInserted)
        invariant inserted == EntriesFrom(hs[..i], if firstInserted < 0 then i else firstInserted)
      {
        var hash := if i < |hs| - 1 then hs[i + 1].parent else hs[i].hash;
        LinkedTo(headers, hs, i);
        OnePrepared(headers, hs, i, headers', tds', newTD);
        SplitStep(headers, hs, i, firstInserted);
        newTD := newTD + hs[i].difficulty;
        if Read(headers, hash, hs[i].number).None? {
          tds', headers' := tds'[hash := newTD], headers'[hash := hs[i]];
          inserted := inserted + [NumberHash(hs[i].number, hash)];
          if firstInserted < 0 {
            firstInserted := i;
          }
        }
      }
      assert hs[..|hs|] == hs;
    }
  }

  /** The batch after `i` headers. */
  ghost predicate Prepared(s: Store, hs: seq<Block>, i: nat, t: Store, tds: map<Hash, nat>, td: nat)
    requires 0 < |hs| && i <= |hs|
  {
    && t == Joined(s, hs[..i]) && Extends(t, s) && Weighty(t) && Before(hs, i) in t
    && td == TotalDifficulty(t, Before(hs, i))
    && tds.Keys == t.Keys && forall h :: h in t ==> tds[h] == TotalDifficulty(t, h)
  }

  lemma NonePrepared(s: Store, hs: seq<Block>, tds: map<Hash, nat>)
    requires Attachable(s, hs) && tds.Keys == s.Keys && forall h :: h in s ==> tds[h] == TotalDifficulty(s, h)
    ensures Prepared(s, hs, 0, s, tds, tds[hs[0].parent])
    ensures SplitAt(s, hs[..0], 0) && EntriesFrom(hs[..0], 0) == []
  {
  }

  lemma LinkedTo(s: Store, hs: seq<Block>, i: nat)
    requires Attachable(s, hs) && i < |hs|
    ensures hs[i].hash == (if i < |hs| - 1 then hs[i + 1].parent else hs[i].hash)
    ensures hs[i].hash in s <==> Read(s, hs[i].hash, hs[i].number).Some?
  {
  }

  lemma OnePrepared(s: Store, hs: seq<Block>, i: nat, t: Store, tds: map<Hash, nat>, td: nat)
    requires Attachable(s, hs) && i < |hs| && Prepared(s, hs, i, t, tds, td)
    ensures var td', hash := td + hs[i].difficulty, hs[i].hash;
      if hash in s then Prepared(s, hs, i + 1, t, tds, td')
      else Prepared(s, hs, i + 1, t[hash := hs[i]], tds[hash := td'], td')
  {
    hide Closed, Linked, Joined, TotalDifficulty;
    var u, hash := Joined(s, hs[..i + 1]), hs[i].hash;
    JoinedTotal(s, hs, i);
    JoinedClosed(s, hs, i + 1);
    JoinedHolds(s, hs, i);
    assert hash in s ==> u == t;
    forall h | h in t ensures TotalDifficulty(u, h) == TotalDifficulty(t, h) {
      SameTotal(t, u, h);
    }
  }

  lemma SplitStep(s: Store, hs: seq<Block>, i: nat, first: int)
    requires Attachable(s, hs) && i < |hs| && -1 <= first < i
    requires SplitAt(s, hs[..i], if first < 0 then i else first)
    ensures var k := if first < 0 then i else first;
      if hs[i].hash in s then
        && first < 0 && SplitAt(s, hs[..i + 1], i + 1)
        && EntriesFrom(hs[..i], i) == [] && EntriesFrom(hs[..i + 1], i + 1) == []
      else
        && SplitAt(s, hs[..i + 1], k)
        && EntriesFrom(hs[..i + 1], k) == EntriesFrom(hs[..i], k) + [NumberHash(hs[i].number, hs[i].hash)]
  {
    hide Closed, NoCollision, Linked, Weighty;
    assert hs[..i + 1] == hs[..i] + [hs[i]];
    if i > 0 && hs[i].hash in s {
      KnownFirst(s, hs, i);
      assert hs[..i][i - 1] == hs[i - 1];
    }
  }

  /** The index leads to the parent of the first header and has nothing above the last. */
  ghost predicate Led(s: Store, w: map<nat, Hash>, hs: seq<Block>)
    requires Attachable(s, hs)
  {
    && (forall n: nat :: n < hs[0].number ==> n in w && w[n] == Ancestor(s, hs[0].parent, n))
    && forall n :: n >= hs[0].number + |hs| ==> n !in w
  }

  /** The entries for the numbers of the headers have not changed. */
  ghost predicate Unmoved(was: map<nat, Hash>, now: map<nat, Hash>, hs: seq<Block>)
    requires |hs| > 0
  {
    forall n :: hs[0].number <= n < hs[0].number + |hs| ==> (n in now <==> n in was) && (n in was ==> now[n] == was[n])
  }

  lemma ParentStored(s: Store, hs: seq<Block>)
    requires Attachable(s, hs)
    ensures hs[0].number > 0 && Linked(hs) && Closed(s) && hs[0].parent in s
    ensures s[hs[0].parent].number == hs[0].number - 1
  {
  }

  lemma OnTheSpot(s: Store, hs: seq<Block>)
    requires Attachable(s, hs)
    ensures Led(s, CanonOf(s, hs[0].parent), hs)
  {
    hide Closed, NoCollision, Weighty, Ancestor;
  }

  lemma NothingEntered(w: map<nat, Hash>, hs: seq<Block>)
    requires |hs| > 0
    ensures Entered(w, hs, 0, 0) && SameOutside(w, w, hs[0].number, hs[0].number)
  {
  }

  lemma SameAll(w: map<nat, Hash>, v: map<nat, Hash>, n: nat)
    requires SameOutside(w, v, n, n)
    ensures w == v
  {
  }

  /** With the entries of all the headers on top, it is the chain of the last. */
  lemma SplicedIsCanon(s: Store, hs: seq<Block>, k: nat, v: map<nat, Hash>, v': map<nat, Hash>, w: map<nat, Hash>)
    requires Attachable(s, hs) && Contains(s, hs) && Led(s, v, hs) && k <= |hs|
    requires Entered(v', hs, 0, k) && SameOutside(v', v, hs[0].number, hs[0].number + k)
    requires Entered(w, hs, k, |hs|) && SameOutside(w, v', hs[0].number + k, hs[0].number + |hs|)
    ensures w == CanonOf(s, hs[|hs| - 1].hash)
  {
    hide Closed, Linked, NoCollision, Weighty, Ancestor;
    var last := hs[|hs| - 1];
    var c := CanonOf(s, last.hash);
    ParentStored(s, hs);
    AllNumbers(hs);
    forall n: nat | n <= last.number ensures n in w && w[n] == c[n] {
      if n < hs[0].number {
        ThroughAll(s, hs, 0);
        AncestorTransitive(s, last.hash, hs[0].number - 1, n);
      } else {
        ThroughAll(s, hs, n + 1 - hs[0].number);
        assert hs[n - hs[0].number].number == n;
      }
    }
    assert w == c;
  }

  /** Clears the index above the last header and leads it to the parent of the first. */
  method Detour(headers: Store, canon: map<nat, Hash>, hs: seq<Block>, ghost head: Hash)
    returns (written: map<nat, Hash>)
    requires Attachable(headers, hs) && head in headers && canon == CanonOf(headers, head)
    ensures Led(headers, written, hs) && Unmoved(canon, written, hs)
  {
    hide Closed, Linked, NoCollision, Weighty, Ancestor;
    var last := hs[|hs| - 1];
    CanonUpTo(headers, head);
    ParentStored(headers, hs);
    AllNumbers(hs);
    written := DeleteFrom(canon, last.number + 1);
    written := RewriteBack(headers, canon, written, hs[0].parent, head);
  }

  /** Some of the headers are not in the store. */
  ghost predicate AnyNew(s: Store, hs: seq<Block>) {
    exists i :: 0 <= i < |hs| && hs[i].hash !in s
  }

  /** Whether the chain of `last` takes over from that of `head`. */
  ghost predicate Switches(s: Store, last: Hash, head: Hash, coin: bool)
  {
    && Closed(s) && last in s && head in s
    && var newTD, localTD := TotalDifficulty(s, last), TotalDifficulty(s, head);
    || newTD > localTD
    || (newTD == localTD && (s[last].number < s[head].number || (s[last].number == s[head].number && coin)))
  }

  lemma LastContained(s: Store, hs: seq<Block>)
    requires Contains(s, hs) && hs != []
    ensures var last := hs[|hs| - 1]; last.hash in s && s[last.hash] == last
  {
  }

  lemma SwitchesWhen(s: Store, last: Hash, head: Hash, coin: bool)
    requires Closed(s) && last in s && head in s
    ensures var newTD, localTD := TotalDifficulty(s, last), TotalDifficulty(s, head);
      && (newTD > localTD ==> Switches(s, last, head, coin))
      && (newTD < localTD ==> !Switches(s, last, head, coin))
      && (newTD == localTD && s[last].number < s[head].number ==> Switches(s, last, head, coin))
      && (newTD == localTD && s[last].number > s[head].number ==> !Switches(s, last, head, coin))
      && (newTD == localTD && s[last].number == s[head].number ==> (Switches(s, last, head, coin) <==> coin))
  {
    hide Closed, TotalDifficulty;
  }

  /** What the commit of a batch means for the rest. */
  lemma AllPrepared(s: Store, hs: seq<Block>, t: Store, tds: map<Hash, nat>, td: nat, head: Hash)
    requires Attachable(s, hs) && Prepared(s, hs, |hs|, t, tds, td) && head in s
    ensures t == Joined(s, hs) && Extends(t, s) && Weighty(t) && Contains(t, hs) && Attachable(t, hs)
    ensures hs[|hs| - 1].hash in t && td == TotalDifficulty(t, hs[|hs| - 1].hash) && head in t && t[head] == s[head]
    ensures CanonOf(t, head) == CanonOf(s, head) && TotalDifficulty(t, head) == TotalDifficulty(s, head)
    ensures tds.Keys == t.Keys && (forall h :: h in t ==> tds[h] == TotalDifficulty(t, h))
    ensures forall h :: h in s ==> tds[h] == TotalDifficulty(s, h)
    ensures forall h :: h in t ==> h in s || tds[h] <= td
  {
    hide Linked, NoCollision, Weighty, Joined, TotalDifficulty, OneGenesis;
    assert hs[..|hs|] == hs;
    CommitHolds(s, hs, t);
    SameCanon(s, t, head);
    forall h | h in s ensures TotalDifficulty(t, h) == TotalDifficulty(s, h) {
      SameTotal(s, t, h);
    }
    forall h | h in t && h !in s ensures tds[h] <= td {
      var j :| 0 <= j < |hs| && hs[j].hash == h;
      LighterThanLast(t, hs, j);
    }
  }

  lemma CommitHolds(s: Store, hs: seq<Block>, t: Store)
    requires Attachable(s, hs) && t == Joined(s, hs) && Extends(t, s) && Weighty(t)
    ensures Contains(t, hs) && Attachable(t, hs)
    ensures forall h :: h in t ==> h in s || exists j :: 0 <= j < |hs| && hs[j].hash == h
  {
    hide Closed, Linked, Weighty, Joined;
    assert hs[..|hs|] == hs;
    JoinedHolds(s, hs, |hs|);
  }

  lemma LighterThanLast(s: Store, hs: seq<Block>, j: nat)
    requires Attachable(s, hs) && Contains(s, hs) && j < |hs|
    ensures TotalDifficulty(s, hs[j].hash) <= TotalDifficulty(s, hs[|hs| - 1].hash)
  {
    hide Closed, Linked, Weighty, TotalDifficulty, NoCollision;
    AllNumbers(hs);
    ThroughAll(s, hs, j + 1);
    if j < |hs| - 1 {
      AncestorLighter(s, hs[|hs| - 1].hash, hs[j].number);
    }
  }

  /** What is known already is no heavier than the current chain, so it does not start above it. */
  lemma KnownIsLight(s: Store, hs: seq<Block>, tds: map<Hash, nat>, td: nat, head: Hash, first: int)
    requires Attachable(s, hs) && head in s && -1 <= first < |hs|
    requires tds.Keys == s.Keys && (forall h :: h in s ==> tds[h] == TotalDifficulty(s, h) && tds[h] <= tds[head])
    requires SplitAt(s, hs, if first < 0 then |hs| else first)
    requires var t := Joined(s, hs);
      Extends(t, s) && hs[|hs| - 1].hash in t && td == TotalDifficulty(t, hs[|hs| - 1].hash)
    ensures first < 0 ==> td <= tds[head]
    ensures hs[0].parent == head ==> first == 0
    ensures first < 0 <==> !AnyNew(s, hs)
  {
    hide Closed, Weighty, Joined;
    if first < 0 {
      assert hs[|hs| - 1].hash in s;
      SameTotal(s, Joined(s, hs), hs[|hs| - 1].hash);
    } else {
      assert hs[first].hash !in s;
    }
    if hs[0].parent == head && hs[0].hash in s {
      HeavierChild(s, hs[0]);
    }
  }

  lemma HeavierChild(s: Store, b: Block)
    requires Closed(s) && b.hash in s && s[b.hash] == b && b.number > 0 && b.difficulty >= 1
    ensures b.parent in s && TotalDifficulty(s, b.hash) > TotalDifficulty(s, b.parent)
  {
  }

  /** A switch to known headers leaves a wrong index, unless they end in the current header. */
  lemma NotEntered(s: Store, hs: seq<Block>, was: map<nat, Hash>, now: map<nat, Hash>, head: Hash)
    requires Attachable(s, hs) && Contains(s, hs) && head in s && was == CanonOf(s, head)
    requires Led(s, now, hs) && Unmoved(was, now, hs)
    requires hs[|hs| - 1].number <= s[head].number
    requires TotalDifficulty(s, hs[|hs| - 1].hash) == TotalDifficulty(s, head)
    ensures now == CanonOf(s, hs[|hs| - 1].hash) <==> hs[|hs| - 1].hash == head
  {
    hide Closed, Linked, Weighty, TotalDifficulty, NoCollision, Ancestor, Led, CanonOf;
    var last := hs[|hs| - 1];
    AllNumbers(hs);
    assert s[last.hash] == last;
    CanonAt(s, last.hash, last.number);
    CanonAt(s, head, last.number);
    if last.hash == head {
      KeptIndex(s, hs, was, now);
    } else {
      NotAnAncestor(s, head, last.hash);
    }
  }

  lemma CanonAt(s: Store, h: Hash, n: nat)
    requires Closed(s) && h in s && n <= s[h].number
    ensures n in CanonOf(s, h) && CanonOf(s, h)[n] == Ancestor(s, h, n) && Ancestor(s, h, s[h].number) == h
  {
  }

  lemma NotAnAncestor(s: Store, h: Hash, k: Hash)
    requires Closed(s) && Weighty(s) && h in s && k in s && h != k && s[k].number <= s[h].number
    requires TotalDifficulty(s, h) == TotalDifficulty(s, k)
    ensures Ancestor(s, h, s[k].number) != k
  {
    if s[k].number < s[h].number { AncestorLighter(s, h, s[k].number); }
  }

  lemma KeptIndex(s: Store, hs: seq<Block>, was: map<nat, Hash>, now: map<nat, Hash>)
    requires Attachable(s, hs) && Contains(s, hs) && was == CanonOf(s, hs[|hs| - 1].hash)
    requires Led(s, now, hs) && Unmoved(was, now, hs)
    ensures now == was
  {
    hide Closed, Linked, Weighty, NoCollision, Ancestor;
    var last := hs[|hs| - 1];
    ParentStored(s, hs);
    AllNumbers(hs);
    forall n: nat | n <= last.number ensures n in now && now[n] == was[n] {
      if n < hs[0].number {
        ThroughAll(s, hs, 0);
        AncestorTransitive(s, last.hash, hs[0].number - 1, n);
      }
    }
  }

  /** Going back `ancestor` headers one by one; nothing when one is missing. */
  ghost function Walk(s: Store, hash: Hash, number: nat, ancestor: nat): Option<Hash>
    decreases ancestor
  {
    if ancestor == 0 then Some(hash)
    else
      match Read(s, hash, number)
      case None => None
      case Some(b) => if number == 0 then None else Walk(s, b.parent, number - 1, ancestor - 1)
  }

  /** How many single steps lead to a header on the index. */
  ghost function OffIndex(s: Store, canon: map<nat, Hash>, hash: Hash, number: nat, ancestor: nat): nat
    decreases ancestor
  {
    if ancestor == 0 || number == 0 || Canonical(canon, number) == hash then 0
    else
      match Read(s, hash, number)
      case None => 0
      case Some(b) => 1 + OffIndex(s, canon, b.parent, number - 1, ancestor - 1)
  }

  /** From a stored header the walk always succeeds and finds the ancestor; it fails at once or not at all. */
  lemma {:induction false} WalkIsAncestor(s: Store, hash: Hash, number: nat, ancestor: nat)
    requires Closed(s) && ancestor <= number
    ensures Read(s, hash, number).Some? ==>
      Walk(s, hash, number, ancestor) == Some(Ancestor(s, hash, number - ancestor))
    ensures Walk(s, hash, number, ancestor).None? <==> ancestor > 0 && Read(s, hash, number).None?
    decreases ancestor
  {
    hide OneGenesis;
    if ancestor > 0 && Read(s, hash, number).Some? {
      WalkIsAncestor(s, s[hash].parent, number - 1, ancestor - 1);
    }
  }

  /** On the index, one jump goes where the walk goes. */
  lemma JumpIsWalk(s: Store, canon: map<nat, Hash>, head: Hash, hash: Hash, number: nat, ancestor: nat)
    requires Closed(s) && head in s && canon == CanonOf(s, head)
    requires hash != NO_HASH && Canonical(canon, number) == hash && ancestor <= number
    ensures number - ancestor in canon && canon[number - ancestor] != NO_HASH
    ensures Walk(s, hash, number, ancestor) == Some(canon[number - ancestor])
  {
    hide OneGenesis;
    CanonUpTo(s, head);
    WalkIsAncestor(s, hash, number, ancestor);
    AncestorTransitive(s, head, number, number - ancestor);
  }

  lemma ParentsStored(s: Store)
    requires Closed(s)
    ensures forall h {:trigger s[h].parent} :: h in s && s[h].number > 0 ==> s[h].parent != NO_HASH
  {
  }

  /** Two children of genesis, as heavy and as long as one another. Once both are stored, writing
      the second again with the coin in its favour moves the current header but not the index. */
  method TieLeavesIndex() returns (chain: HeaderChain)
    ensures fresh(chain) && chain.Stored() && !chain.Valid()
  {
    hide CanonOf, Joined, OneGenesis, SplitAt, NoCollision, Linked, AnyNew, Weighty, Contains;
    var g, a, b := Block(1, 0, 0, 1, []), Block(2, 1, 1, 1, []), Block(3, 1, 1, 1, []);
    chain := new HeaderChain(g);
    JoinedOne(chain.headers, a);
    var r := chain.WriteHeaders([a], false, false);
    JoinedOne(chain.headers, b);
    r := chain.WriteHeaders([b], false, false);
    assert chain.headers == map[1 := g, 2 := a, 3 := b];
    JoinedOne(chain.headers, b);
    r := chain.WriteHeaders([b], false, true);
  }

  lemma JoinedOne(s: Store, b: Block)
    ensures Joined(s, [b]) == s[b.hash := b] && [b][0] == b
    ensures AnyNew(s, [b]) <==> b.hash !in s
    ensures (b.hash in s ==> s[b.hash] == b) ==> NoCollision(s, [b])
    ensures b.hash != NO_HASH && b.difficulty >= 1 ==> Linked([b])
  {
    assert [b][..0] == [];
    if b.hash !in s { assert [b][0].hash !in s; }
  }
}
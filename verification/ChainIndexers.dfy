/** `ChainIndexer`: sections of the canonical chain are processed in the background while the chain
    moves on. Every reader of the chain sees the canonical index of that moment. */
module ChainIndexers {
  import opened Types
  import opened Chains

  /** Where the update loop is. While it processes a section the lock is free. */
  datatype Phase =
    | Idle
    | Resetting(section: nat, oldHead: Hash)
    | Processing(section: nat, oldHead: Hash, number: nat, lastHead: Hash)
    | Processed(section: nat, oldHead: Hash, newHead: Option<Hash>)

  /** The number of the last block of a section. */
  function LastOf(size: nat, section: nat): int {
    (section + 1) * size - 1
  }

  /** The number of its first. */
  function FirstOf(size: nat, section: nat): nat {
    section * size
  }

  lemma FirstAndLast(size: nat, section: nat)
    ensures FirstOf(size, section) + size == LastOf(size, section) + 1 && FirstOf(size, 0) == 0
    ensures FirstOf(size, section + 1) == FirstOf(size, section) + size
  {
  }

  /** `h` is a stored block with number `n`, and its chain runs through `below` at number `m`. */
  ghost predicate Descends(s: Store, h: Hash, n: int, below: Hash, m: int)
    requires Closed(s)
  {
    h in s && s[h].number == n && (m >= 0 ==> m <= n && Ancestor(s, h, m) == below)
  }

  /** Each section head is the descendant, one section on, of the one before. */
  ghost predicate SectionsLinked(s: Store, heads: map<nat, Hash>, size: nat, stored: nat)
    requires Closed(s)
  {
    forall i: nat :: i < stored ==> SectionLinked(s, heads, size, i)
  }

  ghost predicate SectionLinked(s: Store, heads: map<nat, Hash>, size: nat, i: nat)
    requires Closed(s)
  {
    && i in heads
    && Descends(s, heads[i], LastOf(size, i), if i == 0 then NO_HASH else SectionHead(heads, i - 1),
                LastOf(size, i) - size)
  }

  function SectionHead(heads: map<nat, Hash>, section: int): Hash {
    if section in heads then heads[section] else NO_HASH
  }

  /** All stored sections end in canonical blocks. */
  ghost predicate AllCanonical(heads: map<nat, Hash>, size: nat, stored: nat, canon: map<nat, Hash>) {
    forall i: nat :: i < stored ==> i in heads && Canonical(canon, LastOf(size, i)) == heads[i]
  }

  lemma LastOfNext(size: nat, section: nat)
    ensures LastOf(size, 0) == size - 1 && LastOf(size, section + 1) == LastOf(size, section) + size
  {
  }

  lemma {:induction false} LastOfGrows(size: nat, i: nat, j: nat)
    requires i <= j
    ensures size - 1 <= LastOf(size, i) <= LastOf(size, j)
    decreases i + j
  {
    hide LastOf;
    if i < j {
      LastOfNext(size, j - 1);
      LastOfGrows(size, i, j - 1);
    } else if i > 0 {
      LastOfNext(size, i - 1);
      LastOfGrows(size, i - 1, i - 1);
    } else {
      LastOfNext(size, 0);
    }
  }

  lemma LinkedAt(s: Store, heads: map<nat, Hash>, size: nat, stored: nat, i: nat)
    requires Closed(s) && SectionsLinked(s, heads, size, stored) && i < stored
    ensures SectionLinked(s, heads, size, i)
  {
  }

  /** The chain of a section head runs through all section heads below. */
  lemma {:induction false} ThroughSections(s: Store, heads: map<nat, Hash>, size: nat, stored: nat, i: nat, j: nat)
    requires Closed(s) && size > 0 && SectionsLinked(s, heads, size, stored) && i <= j < stored
    ensures i in heads && j in heads && heads[j] in s && s[heads[j]].number == LastOf(size, j)
    ensures 0 <= LastOf(size, i) <= LastOf(size, j) && Ancestor(s, heads[j], LastOf(size, i)) == heads[i]
    decreases j
  {
    hide Closed, Ancestor, LastOf, SectionsLinked;
    LinkedAt(s, heads, size, stored, i);
    LinkedAt(s, heads, size, stored, j);
    LastOfGrows(size, i, j);
    if i < j {
      ThroughSections(s, heads, size, stored, i, j - 1);
      LastOfNext(size, j - 1);
      LastOfGrows(size, i, j - 1);
      AncestorTransitive(s, heads[j], LastOf(size, j - 1), LastOf(size, i));
    } else {
      StartsThere(s, heads[j]);
    }
  }

  /** When the last section head is canonical, all of them are. */
  lemma LastDecides(s: Store, heads: map<nat, Hash>, size: nat, stored: nat, head: Hash)
    requires Closed(s) && size > 0 && SectionsLinked(s, heads, size, stored) && head in s
    requires stored > 0 ==> Canonical(CanonOf(s, head), LastOf(size, stored - 1)) == SectionHead(heads, stored - 1)
    ensures AllCanonical(heads, size, stored, CanonOf(s, head))
  {
    hide Closed, Ancestor, SectionsLinked, LastOf;
    forall i: nat | i < stored ensures i in heads && Canonical(CanonOf(s, head), LastOf(size, i)) == heads[i] {
      ThroughSections(s, heads, size, stored, i, stored - 1);
      CanonEntries(s, head);
      StartsThere(s, head);
      var top: nat := LastOf(size, stored - 1);
      assert top <= s[head].number && Ancestor(s, head, top) == heads[stored - 1];
      AncestorTransitive(s, head, top, LastOf(size, i));
    }
  }

  lemma {:induction false} LinkedInLarger(s: Store, t: Store, heads: map<nat, Hash>, size: nat, stored: nat)
    requires Extends(t, s) && SectionsLinked(s, heads, size, stored)
    ensures SectionsLinked(t, heads, size, stored)
  {
    hide Closed, Ancestor, LastOf;
    forall i: nat | i < stored ensures SectionLinked(t, heads, size, i) {
      assert SectionLinked(s, heads, size, i);
      var m := LastOf(size, i) - size;
      if m >= 0 { SameAncestor(s, t, heads[i], m); }
    }
  }

  /** The block the section will link to: the head of the section before. */
  ghost predicate Continues(s: Store, size: nat, section: nat, oldHead: Hash)
    requires Closed(s)
  {
    if section == 0 then oldHead == NO_HASH
    else oldHead in s && s[oldHead].number == LastOf(size, section) - size
  }

  /** The blocks of a section up to `number` have been processed; `lastHead` is the last of them,
      and its chain runs through `oldHead`. */
  ghost predicate Progress(s: Store, size: nat, section: nat, oldHead: Hash, number: nat, lastHead: Hash)
    requires Closed(s)
  {
    && LastOf(size, section) - size < number <= LastOf(size, section) + 1
    && if number == LastOf(size, section) - size + 1 then lastHead == oldHead
       else Descends(s, lastHead, number - 1, oldHead, LastOf(size, section) - size)
  }

  /** A block whose parent is the last one processed takes the section one block further. */
  lemma ProgressStep(s: Store, size: nat, section: nat, oldHead: Hash, number: nat, lastHead: Hash, h: Hash)
    requires Closed(s) && size > 0 && Continues(s, size, section, oldHead)
    requires Progress(s, size, section, oldHead, number, lastHead) && number <= LastOf(size, section)
    requires h in s && s[h].number == number && s[h].parent == lastHead
    ensures Progress(s, size, section, oldHead, number + 1, h)
  {
    hide LastOf, OneGenesis;
    LastOfGrows(size, 0, section);
    if section > 0 {
      LastOfNext(size, section - 1);
      LastOfGrows(size, section - 1, section);
      ParentAt(s, h);
      var m := LastOf(size, section) - size;
      if number > m + 1 {
        AncestorTransitive(s, h, number - 1, m);
      }
    } else {
      LastOfNext(size, 0);
    }
  }

  lemma ParentAt(s: Store, h: Hash)
    requires Closed(s) && h in s
    ensures s[h].number > 0 ==> s[h].parent in s && Ancestor(s, h, s[h].number - 1) == s[h].parent
  {
  }

  /** A finished section that continues the last stored one can be stored. */
  lemma StoreSection(s: Store, heads: map<nat, Hash>, size: nat, stored: nat, newHead: Hash)
    requires Closed(s) && size > 0 && SectionsLinked(s, heads, size, stored)
    requires Progress(s, size, stored, SectionHead(heads, stored - 1), LastOf(size, stored) + 1, newHead)
    requires stored == 0 ==> SectionHead(heads, -1) == NO_HASH
    ensures SectionsLinked(s, heads[stored := newHead], size, stored + 1)
  {
    hide Closed, Ancestor, LastOf;
    var heads' := heads[stored := newHead];
    forall i: nat | i < stored + 1 ensures SectionLinked(s, heads', size, i) {
      if i < stored { LinkedAt(s, heads, size, stored, i); }
    }
  }

  /** The first sections only. */
  ghost function Cut(heads: map<nat, Hash>, sections: nat): map<nat, Hash> {
    map i | i in heads && i < sections :: heads[i]
  }

  ghost predicate HeadsUpTo(heads: map<nat, Hash>, stored: nat) {
    forall i: nat :: i in heads <==> i < stored
  }

  lemma CutLinked(s: Store, heads: map<nat, Hash>, size: nat, stored: nat, sections: nat)
    requires Closed(s) && SectionsLinked(s, heads, size, stored) && sections <= stored && HeadsUpTo(heads, stored)
    ensures SectionsLinked(s, Cut(heads, sections), size, sections) && HeadsUpTo(Cut(heads, sections), sections)
  {
    hide Closed, Ancestor, LastOf;
    var heads' := Cut(heads, sections);
    forall i: nat | i < sections ensures SectionLinked(s, heads', size, i) {
      LinkedAt(s, heads, size, stored, i);
    }
  }

  /** How many sections are left when those are dropped from the top that do not end in a canonical
      block, down to the first that does. */
  function Verified(heads: map<nat, Hash>, size: nat, stored: nat, canon: map<nat, Hash>): (k: nat)
    ensures k <= stored
  {
    if stored == 0 || SectionHead(heads, stored - 1) == Canonical(canon, LastOf(size, stored - 1)) then stored
    else Verified(heads, size, stored - 1, canon)
  }

  /** An indexer, on values. */
  datatype State = State(
    headers: Store, heads: map<nat, Hash>, stored: nat, known: nat, cascaded: int, update: bool, phase: Phase)

  /** What becomes of it with one event. */
  ghost function Step(size: nat, confirms: nat, s: State, event: Event): State
    requires size > 0
  {
    match event
    case Head(head, reorg) =>
      var known: nat, complete: nat := (head + 1) / size, if head >= confirms then (head + 1 - confirms) / size else 0;
      if reorg then
        var stored := if known < s.stored then known else s.stored;
        s.(known := if known < s.known then known else s.known, stored := stored, heads := Cut(s.heads, stored),
           cascaded := if FirstOf(size, known) < s.cascaded then FirstOf(size, known) else s.cascaded)
      else if complete > s.known then s.(known := complete, update := true)
      else s
    case NewHeader(header) =>
      if header.hash != NO_HASH && header.hash !in s.headers
        && Read(s.headers, header.parent, header.number - 1).Some?
      then s.(headers := s.headers[header.hash := header])
      else s
    case Check(canon) => Checked(size, s, canon)
    case Work(canon, ok) => Worked(size, s, canon, ok)
  }

  ghost function Checked(size: nat, s: State, canon: map<nat, Hash>): State {
    var k := Verified(s.heads, size, s.stored, canon);
    s.(stored := k, heads := Cut(s.heads, k))
  }

  /** One turn of the update loop. */
  ghost function Worked(size: nat, s: State, canon: map<nat, Hash>, ok: bool): State {
    match s.phase
    case Idle =>
      if !s.update then s
      else if s.known <= s.stored then s.(update := false)
      else
        var t := Checked(size, s, canon);
        t.(update := false, phase := Resetting(t.stored, SectionHead(t.heads, t.stored - 1)))
    case Resetting(section, oldHead) =>
      if ok then s.(phase := Processing(section, oldHead, FirstOf(size, section), oldHead))
      else s.(stored := 0, heads := Cut(s.heads, 0), phase := Processed(section, oldHead, None))
    case Processing(section, oldHead, number, lastHead) =>
      var hash := Canonical(canon, number);
      if number > LastOf(size, section) then
        s.(phase := Processed(section, oldHead, if ok then Some(lastHead) else None))
      else if ok && hash in s.headers && s.headers[hash].number == number && s.headers[hash].parent == lastHead then
        s.(phase := Processing(section, oldHead, number + 1, hash))
      else s.(phase := Processed(section, oldHead, None))
    case Processed(section, oldHead, newHead) =>
      if newHead.Some? && (section == 0 || oldHead == SectionHead(s.heads, section - 1)) then
        s.(stored := section + 1, heads := s.heads[section := newHead.value],
           cascaded := LastOf(size, section), update := s.update || section + 1 < s.known, phase := Idle)
      else
        var t := Checked(size, s, canon);
        t.(known := t.stored, phase := Idle)
  }

  /** `n` turns of the update loop while the chain stands still and the backend does its work. */
  ghost function Turns(size: nat, s: State, canon: map<nat, Hash>, n: nat): State {
    if n == 0 then s else Worked(size, Turns(size, s, canon, n - 1), canon, true)
  }

  lemma {:induction false} TurnsAdd(size: nat, s: State, canon: map<nat, Hash>, m: nat, n: nat)
    ensures Turns(size, s, canon, m + n) == Turns(size, Turns(size, s, canon, m), canon, n)
  {
    hide Worked;
    if n > 0 { TurnsAdd(size, s, canon, m, n - 1); }
  }

  lemma OneTurn(size: nat, s: State, canon: map<nat, Hash>)
    ensures Turns(size, s, canon, 1) == Worked(size, s, canon, true)
  {
    assert Turns(size, s, canon, 0) == s;
  }

  /** The indexer has seen the chain of `h`, whose index is `canon`, up to the last block of the section. */
  ghost predicate Reaches(s: State, size: nat, canon: map<nat, Hash>, h: Hash, section: nat) {
    && size > 0 && Closed(s.headers) && h in s.headers && canon == CanonOf(s.headers, h)
    && LastOf(size, section) <= s.headers[h].number
  }

  lemma CanonicalBlock(s: Store, canon: map<nat, Hash>, h: Hash, n: nat)
    requires Closed(s) && h in s && canon == CanonOf(s, h) && n <= s[h].number
    ensures var hash := Canonical(canon, n);
      hash in s && s[hash].number == n && s[hash].parent == Canonical(canon, n - 1)
  {
    hide Ancestor;
    CanonEntries(s, h);
    var hash := Ancestor(s, h, n);
    ParentAt(s, hash);
    if n > 0 { AncestorTransitive(s, h, n, n - 1); }
  }

  lemma ProcessOne(size: nat, s: State, canon: map<nat, Hash>, h: Hash, section: nat, oldHead: Hash, n: nat)
    requires Reaches(s, size, canon, h, section) && n <= LastOf(size, section)
    requires s.phase == Processing(section, oldHead, n, Canonical(canon, n - 1))
    ensures Worked(size, s, canon, true) == s.(phase := Processing(section, oldHead, n + 1, Canonical(canon, n)))
  {
    hide Closed, CanonOf, Canonical, LastOf, Checked, SectionHead;
    CanonicalBlock(s.headers, canon, h, n);
  }

  /** Block after block of the section is processed. */
  lemma {:induction false} Processes(size: nat, s: State, canon: map<nat, Hash>, h: Hash, section: nat, i: nat)
    requires Reaches(s, size, canon, h, section) && i <= size
    requires var oldHead := Canonical(canon, FirstOf(size, section) - 1);
      s.phase == Processing(section, oldHead, FirstOf(size, section), oldHead)
    ensures var oldHead, n := Canonical(canon, FirstOf(size, section) - 1), FirstOf(size, section) + i;
      Turns(size, s, canon, i) == s.(phase := Processing(section, oldHead, n, Canonical(canon, n - 1)))
  {
    hide Closed, CanonOf, Canonical, Worked, FirstOf;
    FirstAndLast(size, section);
    if i > 0 {
      Processes(size, s, canon, h, section, i - 1);
      ProcessOne(size, Turns(size, s, canon, i - 1), canon, h, section, Canonical(canon, FirstOf(size, section) - 1),
                 FirstOf(size, section) + i - 1);
    }
  }

  lemma TwoTurns(size: nat, s: State, canon: map<nat, Hash>)
    ensures Turns(size, s, canon, 2) == Worked(size, Worked(size, s, canon, true), canon, true)
  {
    hide Worked;
    TurnsAdd(size, s, canon, 1, 1);
    OneTurn(size, s, canon);
    OneTurn(size, Worked(size, s, canon, true), canon);
  }

  /** Woken, the indexer checks what is stored and prepares its backend for the next section. */
  lemma Starts(size: nat, s: State, canon: map<nat, Hash>)
    requires s.phase.Idle? && s.update && s.stored < s.known
    ensures var k, t := Verified(s.heads, size, s.stored, canon), Turns(size, s, canon, 2);
      var oldHead := Canonical(canon, FirstOf(size, k) - 1);
      && t == Checked(size, s, canon).(update := false, phase := Processing(k, oldHead, FirstOf(size, k), oldHead))
      && oldHead == SectionHead(t.heads, k - 1)
  {
    hide Canonical, Verified, SectionHead, FirstOf, LastOf;
    VerifiedTop(s.heads, size, s.stored, canon);
    NothingBelow(canon);
    var k := Verified(s.heads, size, s.stored, canon);
    FirstAndLast(size, k);
    if k > 0 { FirstAndLast(size, k - 1); }
    TwoTurns(size, s, canon);
  }

  /** A section whose blocks are all processed is committed and stored. */
  lemma Ends(size: nat, s: State, canon: map<nat, Hash>, section: nat)
    requires s.phase.Processing? && s.phase.section == section && s.phase.number > LastOf(size, section)
    requires s.phase.oldHead == SectionHead(s.heads, section - 1)
    ensures Turns(size, s, canon, 2) ==
      s.(stored := section + 1, heads := s.heads[section := s.phase.lastHead], cascaded := LastOf(size, section),
         update := s.update || section + 1 < s.known, phase := Idle)
  {
    hide Canonical, Checked;
    TwoTurns(size, s, canon);
  }

  /** From a wake-up on, one section more is stored after as many turns as it has blocks and four. */
  lemma OneSection(size: nat, s: State, canon: map<nat, Hash>, h: Hash)
    requires s.phase.Idle? && s.update && s.stored < s.known
    requires Reaches(s, size, canon, h, Verified(s.heads, size, s.stored, canon))
    ensures var k, t := Verified(s.heads, size, s.stored, canon), Turns(size, s, canon, size + 4);
      && t.phase.Idle? && t.headers == s.headers && t.known == s.known && t.stored == k + 1
      && (t.update <==> k + 1 < s.known) && Verified(t.heads, size, t.stored, canon) == k + 1
  {
    hide Closed, CanonOf, Canonical, Turns, FirstOf;
    var k := Verified(s.heads, size, s.stored, canon);
    Starts(size, s, canon);
    var s2 := Turns(size, s, canon, 2);
    Processes(size, s2, canon, h, k, size);
    var s3 := Turns(size, s2, canon, size);
    FirstAndLast(size, k);
    Ends(size, s3, canon, k);
    TurnsAdd(size, s, canon, 2, size);
    TurnsAdd(size, s, canon, 2 + size, 2);
  }

  lemma VerifiedTop(heads: map<nat, Hash>, size: nat, stored: nat, canon: map<nat, Hash>)
    ensures var k := Verified(heads, size, stored, canon);
      SectionHead(Cut(heads, k), k - 1) == if k == 0 then NO_HASH else Canonical(canon, LastOf(size, k - 1))
  {
    hide LastOf, Canonical;
    VerifiedEnds(heads, size, stored, canon);
  }

  lemma {:induction false} VerifiedEnds(heads: map<nat, Hash>, size: nat, stored: nat, canon: map<nat, Hash>)
    ensures var k := Verified(heads, size, stored, canon);
      k > 0 ==> SectionHead(heads, k - 1) == Canonical(canon, LastOf(size, k - 1))
  {
    if stored > 0 { VerifiedEnds(heads, size, stored - 1, canon); }
  }

  lemma NothingBelow(canon: map<nat, Hash>)
    ensures Canonical(canon, -1) == NO_HASH
  {
  }

  lemma {:induction false} Rests(size: nat, s: State, canon: map<nat, Hash>, n: nat)
    requires s.phase.Idle? && s.known <= s.stored
    ensures Turns(size, s, canon, n) == s || Turns(size, s, canon, n) == s.(update := false)
  {
    if n > 0 { Rests(size, s, canon, n - 1); }
  }

  /** How many turns it takes to store some sections. */
  ghost function Needed(size: nat, sections: nat): nat {
    if sections == 0 then 0 else size + 4 + Needed(size, sections - 1)
  }

  lemma {:induction false} NeededIs(size: nat, sections: nat)
    ensures Needed(size, sections) == (size + 4) * sections
  {
    if sections > 0 { NeededIs(size, sections - 1); }
  }

  /** An indexer that was woken stores all known sections of a chain that stands still, in as many turns
      as they have blocks and four more for each, and then rests. */
  lemma {:induction false} CatchesUp(size: nat, s: State, canon: map<nat, Hash>, h: Hash, n: nat)
    requires s.phase.Idle? && s.update && s.stored < s.known && Reaches(s, size, canon, h, s.known - 1)
    requires n >= Needed(size, s.known - Verified(s.heads, size, s.stored, canon))
    ensures var t := Turns(size, s, canon, n);
      && t.phase.Idle? && t.stored == t.known == s.known && t.headers == s.headers
      && Verified(t.heads, size, t.stored, canon) == t.stored
    decreases s.known - Verified(s.heads, size, s.stored, canon)
  {
    hide Verified, Turns, Closed, CanonOf, LastOf;
    var k := Verified(s.heads, size, s.stored, canon);
    LastOfGrows(size, k, s.known - 1);
    OneSection(size, s, canon, h);
    var t := Turns(size, s, canon, size + 4);
    TurnsAdd(size, s, canon, size + 4, n - (size + 4));
    if k + 1 < s.known {
      CatchesUp(size, t, canon, h, n - (size + 4));
    } else {
      Rests(size, t, canon, n - (size + 4));
    }
  }

  /** How many turns the section under way still takes at most. */
  ghost function Left(size: nat, phase: Phase): nat {
    match phase
    case Idle => 0
    case Resetting(_, _) => size + 3
    case Processing(section, _, number, _) =>
      if number <= LastOf(size, section) then LastOf(size, section) - number + 3 else 2
    case Processed(_, _, _) => 1
  }

  /** Whatever the indexer is at, and even if it fails, it is idle again after as many turns; if sections
      are missing then, another update is due. */
  lemma {:induction false} Settles(size: nat, s: State, canon: map<nat, Hash>) returns (n: nat)
    requires size > 0 && !s.phase.Idle?
    ensures 0 < n <= Left(size, s.phase)
    ensures var t := Turns(size, s, canon, n); t.phase.Idle? && (t.stored < t.known ==> t.update)
    decreases Left(size, s.phase)
  {
    hide LastOf, FirstOf, Canonical, Checked;
    var t := Worked(size, s, canon, true);
    OneTurn(size, s, canon);
    if s.phase.Processed? {
      n := 1;
      CheckedIs(size, s, canon);
    } else {
      if s.phase.Resetting? { FirstAndLast(size, s.phase.section); }
      var m := Settles(size, t, canon);
      n := 1 + m;
      TurnsAdd(size, s, canon, 1, m);
    }
  }

  class ChainIndexer {
    const sectionSize: nat
    const confirmsReq: nat
    /** The headers in the chain's database. */
    var headers: Store
    var sectionHeads: map<nat, Hash>
    var storedSections: nat
    var knownSections: nat
    var cascadedHead: int
    /** An update of the index has been asked for. */
    var update: bool
    var phase: Phase

    ghost predicate Valid()
      reads this
    {
      && sectionSize > 0 && Closed(headers)
      && HeadsUpTo(sectionHeads, storedSections)
      && SectionsLinked(headers, sectionHeads, sectionSize, storedSections)
      && Working(headers, phase) && (phase.Idle? || storedSections <= phase.section)
    }

    /** The section being processed links up. */
    ghost predicate Working(s: Store, phase: Phase)
      requires Closed(s)
    {
      match phase
      case Idle => true
      case Resetting(section, oldHead) => Continues(s, sectionSize, section, oldHead)
      case Processing(section, oldHead, number, lastHead) =>
        Continues(s, sectionSize, section, oldHead) && Progress(s, sectionSize, section, oldHead, number, lastHead)
      case Processed(section, oldHead, newHead) =>
        && Continues(s, sectionSize, section, oldHead)
        && (newHead.Some? ==>
              Progress(s, sectionSize, section, oldHead, LastOf(sectionSize, section) + 1, newHead.value))
    }

    ghost function Now(): State
      reads this
    {
      State(headers, sectionHeads, storedSections, knownSections, cascadedHead, update, phase)
    }

    constructor (size: nat, confirms: nat, headers: Store)
      requires size > 0 && Closed(headers)
      ensures Valid() && storedSections == 0 && sectionSize == size && confirmsReq == confirms
      ensures this.headers == headers
    {
      sectionSize, confirmsReq := size, confirms;
      this.headers := headers;
      sectionHeads, storedSections, knownSections, cascadedHead := map[], 0, 0, 0;
      update, phase := false, Idle;
    }

    /** A new header arrives in the database, if its parent is there. */
    method AddHeader(header: Block)
      requires Valid()
      modifies this`headers
      ensures Valid()
      ensures headers ==
        if header.hash != NO_HASH && header.hash !in old(headers)
          && Read(old(headers), header.parent, header.number - 1).Some?
        then old(headers)[header.hash := header] else old(headers)
    {
      hide Closed, SectionsLinked, LastOf, Ancestor, Extends, Working;
      if header.hash != NO_HASH && header.hash !in headers && Read(headers, header.parent, header.number - 1).Some? {
        ParentBelow(headers, header);
        StoredClosed(headers, header);
        LinkedInLarger(headers, headers[header.hash := header], sectionHeads, sectionSize, storedSections);
        WorkingInLarger(headers[header.hash := header]);
        headers := headers[header.hash := header];
      }
    }

    lemma WorkingInLarger(t: Store)
      requires Valid() && Extends(t, headers)
      ensures Closed(t) && Working(t, phase)
    {
      hide OneGenesis, Ancestor, LastOf, SectionsLinked;
      match phase {
        case Idle =>
        case Resetting(section, oldHead) =>
        case Processing(section, oldHead, number, lastHead) =>
          var m := LastOf(sectionSize, section) - sectionSize;
          if m >= 0 && lastHead in headers && m <= headers[lastHead].number { SameAncestor(headers, t, lastHead, m); }
        case Processed(section, oldHead, newHead) =>
          var m := LastOf(sectionSize, section) - sectionSize;
          if newHead.Some? && m >= 0 && newHead.value in headers && m <= headers[newHead.value].number {
            SameAncestor(headers, t, newHead.value, m);
          }
      }
    }

    /** Changes the number of stored sections, forgetting the heads of those that go. */
    method SetValidSections(sections: nat)
      requires forall i: nat :: i < storedSections ==> i in sectionHeads
      modifies this`sectionHeads, this`storedSections
      ensures storedSections == sections
      ensures sectionHeads ==
        map i | i in old(sectionHeads) && !(sections <= i < old(storedSections)) :: old(sectionHeads)[i]
    {
      while storedSections > sections
        invariant storedSections <= old(storedSections)
        invariant sections < old(storedSections) ==> sections <= storedSections
        invariant sections >= old(storedSections) ==> storedSections == old(storedSections)
        invariant sectionHeads ==
          map i | i in old(sectionHeads) && !(storedSections <= i < old(storedSections)) :: old(sectionHeads)[i]
      {
        storedSections := storedSections - 1;
        sectionHeads := sectionHeads - {storedSections};
      }
      storedSections := sections;
    }

    /** `SetValidSections` to fewer sections. */
    method Rollback(sections: nat)
      requires Valid() && sections <= storedSections
      modifies this`sectionHeads, this`storedSections
      ensures Valid() && storedSections == sections && sectionHeads == Cut(old(sectionHeads), sections)
    {
      hide Closed, SectionsLinked, LastOf, Ancestor, Working;
      CutLinked(headers, sectionHeads, sectionSize, storedSections, sections);
      SetValidSections(sections);
      assert sectionHeads == Cut(old(sectionHeads), sections);
    }

    /** Drops stored sections from the top until one ends in a canonical block. */
    method VerifyLastHead(canon: map<nat, Hash>)
      requires Valid()
      modifies this`sectionHeads, this`storedSections
      ensures Valid() && storedSections <= old(storedSections) && sectionHeads == Cut(old(sectionHeads), storedSections)
      ensures storedSections == Verified(old(sectionHeads), sectionSize, old(storedSections), canon)
      ensures storedSections > 0 ==>
        SectionHead(sectionHeads, storedSections - 1) == Canonical(canon, LastOf(sectionSize, storedSections - 1))
      ensures forall i: nat :: storedSections <= i < old(storedSections) ==>
        SectionHead(old(sectionHeads), i) != Canonical(canon, LastOf(sectionSize, i))
    {
      hide Valid, LastOf;
      KeptAll();
      while storedSections > 0
        invariant Valid() && storedSections <= old(storedSections)
        invariant sectionHeads == Cut(old(sectionHeads), storedSections)
        invariant Verified(old(sectionHeads), sectionSize, storedSections, canon) ==
          Verified(old(sectionHeads), sectionSize, old(storedSections), canon)
        invariant forall i: nat :: storedSections <= i < old(storedSections) ==>
          SectionHead(old(sectionHeads), i) != Canonical(canon, LastOf(sectionSize, i))
      {
        if SectionHead(sectionHeads, storedSections - 1) == Canonical(canon, LastOf(sectionSize, storedSections - 1)) {
          return;
        }
        Rollback(storedSections - 1);
      }
    }

    lemma KeptAll()
      requires Valid()
      ensures sectionHeads == Cut(sectionHeads, storedSections)
    {
    }

    /** A new head, or the block to which the chain has gone back. */
    method NewHead(head: nat, reorg: bool)
      requires Valid()
      modifies this`sectionHeads, this`storedSections, this`knownSections, this`cascadedHead, this`update
      ensures Valid()
      ensures storedSections ==
        if reorg then Min(old(storedSections), (head + 1) / sectionSize) else old(storedSections)
      ensures sectionHeads == Cut(old(sectionHeads), storedSections)
      ensures reorg && storedSections > 0 ==> LastOf(sectionSize, storedSections - 1) <= head
      ensures reorg ==> knownSections == Min(old(knownSections), (head + 1) / sectionSize)
      ensures !reorg ==> head + 1 < FirstOf(sectionSize, knownSections) + sectionSize + confirmsReq
      ensures !reorg && knownSections != old(knownSections) ==>
        FirstOf(sectionSize, knownSections) + confirmsReq <= head + 1
      ensures reorg ==> FirstOf(sectionSize, knownSections) <= head + 1
      ensures cascadedHead ==
        if reorg then Min(old(cascadedHead), FirstOf(sectionSize, (head + 1) / sectionSize)) else old(cascadedHead)
      ensures reorg ==> update == old(update)
      ensures !reorg ==>
        var complete := if head >= confirmsReq then (head + 1 - confirmsReq) / sectionSize else 0;
        && knownSections == (if complete > old(knownSections) then complete else old(knownSections))
        && (update <==> old(update) || complete > old(knownSections))
    {
      hide Closed, SectionsLinked, Working, LastOf, FirstOf;
      KeptAll();
      SectionOf(sectionSize, head + 1);
      if head >= confirmsReq { SectionOf(sectionSize, head + 1 - confirmsReq); }
      if reorg {
        var known := (head + 1) / sectionSize;
        MoreSections(sectionSize, if known < knownSections then known else knownSections, known);
        if known < knownSections {
          knownSections := known;
        }
        if known < storedSections {
          Rollback(known);
        }
        var newHead := FirstOf(sectionSize, known);
        if newHead < cascadedHead {
          cascadedHead := newHead;
        }
        if storedSections > 0 { WithinSections(sectionSize, head, storedSections); }
        return;
      }
      MoreSections(sectionSize, if head < confirmsReq then 0 else (head + 1 - confirmsReq) / sectionSize,
                   knownSections);
      if head >= confirmsReq {
        var sections := (head + 1 - confirmsReq) / sectionSize;
        if sections > knownSections {
          knownSections := sections;
          update := true;
        }
      }
    }

    /** The update loop is woken: it checks what is stored and takes up the next section. */
    method Begin(canon: map<nat, Hash>)
      requires Valid() && phase.Idle?
      modifies this`sectionHeads, this`storedSections, this`update, this`phase
      ensures Valid() && !update && storedSections <= old(storedSections)
      ensures if old(storedSections) < knownSections
        then
          && storedSections == Verified(old(sectionHeads), sectionSize, old(storedSections), canon)
          && sectionHeads == Cut(old(sectionHeads), storedSections)
          && phase == Resetting(storedSections, SectionHead(sectionHeads, storedSections - 1))
        else phase == Idle && storedSections == old(storedSections) && sectionHeads == old(sectionHeads)
    {
      hide Closed, SectionsLinked, Continues;
      update := false;
      if knownSections > storedSections {
        VerifyLastHead(canon);
        ContinuesStored();
        phase := Resetting(storedSections, SectionHead(sectionHeads, storedSections - 1));
      }
    }

    lemma ContinuesStored()
      requires Valid()
      ensures Continues(headers, sectionSize, storedSections, SectionHead(sectionHeads, storedSections - 1))
    {
      hide Closed, LastOf, Ancestor, SectionsLinked;
      if storedSections > 0 {
        LinkedAt(headers, sectionHeads, sectionSize, storedSections, storedSections - 1);
        LastOfNext(sectionSize, storedSections - 1);
      }
    }

    /** The backend prepares for the section; if it cannot, nothing stored is valid any more. */
    method ResetBackend(ok: bool)
      requires Valid() && phase.Resetting?
      modifies this`sectionHeads, this`storedSections, this`phase
      ensures Valid() && storedSections == if ok then old(storedSections) else 0
      ensures sectionHeads == if ok then old(sectionHeads) else Cut(old(sectionHeads), 0)
      ensures !ok ==> phase == Processed(old(phase).section, old(phase).oldHead, None)
      ensures ok ==>
        var p := old(phase);
        phase == Processing(p.section, p.oldHead, FirstOf(sectionSize, p.section), p.oldHead)
    {
      hide Closed, SectionsLinked, Ancestor, Continues;
      var p := phase;
      if ok {
        FirstAndLast(sectionSize, p.section);
        phase := Processing(p.section, p.oldHead, FirstOf(sectionSize, p.section), p.oldHead);
      } else {
        Rollback(0);
        phase := Processed(p.section, p.oldHead, None);
      }
    }

    /** One block of the section, as the chain is now. */
    method ProcessBlock(canon: map<nat, Hash>, backendOk: bool)
      requires Valid() && phase.Processing? && phase.number <= LastOf(sectionSize, phase.section)
      modifies this`phase
      ensures Valid()
      ensures var p, hash := old(phase), Canonical(canon, old(phase).number);
        if hash in headers && headers[hash].number == p.number && headers[hash].parent == p.lastHead && backendOk
        then phase == p.(number := p.number + 1, lastHead := hash)
        else phase == Processed(p.section, p.oldHead, None)
    {
      hide SectionsLinked, Ancestor, Continues, LastOf, Progress, OneGenesis;
      var p := phase;
      var hash := Canonical(canon, p.number);
      var header := Read(headers, hash, p.number);
      phase := Processed(p.section, p.oldHead, None);
      if hash == NO_HASH || header.None? || header.value.parent != p.lastHead || !backendOk { return; }
      ProgressStep(headers, sectionSize, p.section, p.oldHead, p.number, p.lastHead, hash);
      phase := p.(number := p.number + 1, lastHead := header.value.hash);
    }

    /** The backend commits the finished section, or fails to. */
    method Commit(ok: bool)
      requires Valid() && phase.Processing? && phase.number > LastOf(sectionSize, phase.section)
      modifies this`phase
      ensures Valid()
      ensures phase == Processed(old(phase).section, old(phase).oldHead, if ok then Some(old(phase).lastHead) else None)
    {
      hide SectionsLinked, Ancestor, Continues, LastOf, Closed;
      phase := Processed(phase.section, phase.oldHead, if ok then Some(phase.lastHead) else None);
    }

    /** Back under the lock: the section is stored if it was processed and what it continues is
        still the last one stored. */
    method Finish(canon: map<nat, Hash>)
      requires Valid() && phase.Processed?
      modifies this`sectionHeads, this`storedSections, this`knownSections, this`cascadedHead, this`update, this`phase
      ensures Valid() && phase.Idle?
      ensures var p := old(phase);
        if p.newHead.Some? && (p.section == 0 || p.oldHead == SectionHead(old(sectionHeads), p.section - 1))
        then
          && old(storedSections) == p.section && storedSections == p.section + 1
          && sectionHeads == old(sectionHeads)[p.section := p.newHead.value] && knownSections == old(knownSections)
          && cascadedHead == LastOf(sectionSize, p.section)
        else
          && storedSections == Verified(old(sectionHeads), sectionSize, old(storedSections), canon)
          && cascadedHead == old(cascadedHead) && sectionHeads == Cut(old(sectionHeads), storedSections)
          && knownSections == storedSections
      ensures update <==> old(update) || storedSections < knownSections
    {
      hide Closed, SectionsLinked, Ancestor, LastOf, Continues, Progress, Cut;
      var p := phase;
      phase := Idle;
      if p.newHead.Some? && (p.section == 0 || p.oldHead == SectionHead(sectionHeads, p.section - 1)) {
        StillLast(p);
        StoreSection(headers, sectionHeads, sectionSize, storedSections, p.newHead.value);
        sectionHeads := sectionHeads[p.section := p.newHead.value];
        SetValidSections(p.section + 1);
        assert sectionHeads == old(sectionHeads)[p.section := p.newHead.value];
        FirstAndLast(sectionSize, p.section);
        cascadedHead := FirstOf(sectionSize, storedSections) - 1;
      } else {
        VerifyLastHead(canon);
        knownSections := storedSections;
      }
      if knownSections > storedSections { update := true; }
    }

    /** If what the section continues is still there, nothing has been rolled back meanwhile. */
    lemma StillLast(p: Phase)
      requires p.Processed? && Closed(headers) && Working(headers, p) && storedSections <= p.section
      requires HeadsUpTo(sectionHeads, storedSections)
      requires p.section == 0 || p.oldHead == SectionHead(sectionHeads, p.section - 1)
      ensures storedSections == p.section && p.oldHead == SectionHead(sectionHeads, storedSections - 1)
    {
    }

    /** What the indexer tells about its sections, having checked the last one. */
    method Sections(canon: map<nat, Hash>) returns (sections: nat, last: nat, head: Hash)
      requires Valid()
      modifies this`sectionHeads, this`storedSections
      ensures Valid() && storedSections <= old(storedSections) && sectionHeads == Cut(old(sectionHeads), storedSections)
      ensures storedSections == Verified(old(sectionHeads), sectionSize, old(storedSections), canon)
      ensures sections == storedSections && head == SectionHead(sectionHeads, sections - 1)
      ensures last == if sections == 0 then MAX_UINT64 else LastOf(sectionSize, sections - 1)
      ensures forall h :: h in headers && canon == CanonOf(headers, h) ==>
        AllCanonical(sectionHeads, sectionSize, sections, canon)
      ensures forall i: nat :: storedSections <= i < old(storedSections) ==>
        SectionHead(old(sectionHeads), i) != Canonical(canon, LastOf(sectionSize, i))
    {
      hide Closed, SectionsLinked, LastOf, Working, AllCanonical, CanonOf;
      VerifyLastHead(canon);
      sections, head := storedSections, SectionHead(sectionHeads, storedSections - 1);
      LastOfGrows(sectionSize, if sections == 0 then 0 else sections - 1, sections);
      last := if sections == 0 then MAX_UINT64 else LastOf(sectionSize, sections - 1);
      forall h | h in headers && canon == CanonOf(headers, h)
        ensures AllCanonical(sectionHeads, sectionSize, sections, canon)
      {
        LastDecides(headers, sectionHeads, sectionSize, sections, h);
      }
    }

    lemma NowIs()
      requires Valid()
      ensures Now() == State(headers, sectionHeads, storedSections, knownSections, cascadedHead, update, phase)
      ensures Closed(headers)
    {
      hide Closed, SectionsLinked;
    }

    lemma SizeAndHeads()
      requires Valid()
      ensures sectionSize > 0 && sectionHeads == Cut(sectionHeads, storedSections) && NO_HASH !in headers
      ensures phase.Processed? && (phase.section == 0 || phase.oldHead == SectionHead(sectionHeads, phase.section - 1))
        ==> storedSections == phase.section
    {
      hide Ancestor, LastOf, SectionsLinked;
      if phase.Processed? && (phase.section == 0 || phase.oldHead == SectionHead(sectionHeads, phase.section - 1)) {
        StillLast(phase);
      }
    }

    /** One turn of the update loop. */
    method Work(canon: map<nat, Hash>, ok: bool)
      requires Valid()
      modifies this
      ensures Valid() && Now() == Worked(sectionSize, old(Now()), canon, ok)
    {
      hide Valid, LastOf, Verified, Cut, SectionHead, Canonical, AllCanonical, CanonOf;
      SizeAndHeads();
      match phase {
        case Idle => if update { Begin(canon); }
        case Resetting(section, oldHead) => ResetBackend(ok);
        case Processing(section, oldHead, number, lastHead) =>
          if number <= LastOf(sectionSize, section) { ProcessBlock(canon, ok); } else { Commit(ok); }
        case Processed(section, oldHead, newHead) => Finish(canon);
      }
    }

    /** One event of a run. */
    method Do(event: Event)
      requires Valid()
      modifies this
      ensures Valid() && Now() == Step(sectionSize, confirmsReq, old(Now()), event)
    {
      hide Valid, LastOf, Verified, Cut, SectionHead, Canonical, AllCanonical, CanonOf, Worked;
      SizeAndHeads();
      match event {
        case Head(head, reorg) => NewHead(head, reorg);
        case NewHeader(header) => AddHeader(header);
        case Check(canon) => var sections, last, head := Sections(canon);
        case Work(canon, ok) => Work(canon, ok);
      }
    }
  }

  /** What happens to an indexer: notices of heads, new headers, questions, and turns of its own
      work. The canonical index may be a different one every time. */
  datatype Event =
    | Head(head: nat, reorg: bool)
    | NewHeader(header: Block)
    | Check(canon: map<nat, Hash>)
    | Work(canon: map<nat, Hash>, ok: bool)

  /** The states that an indexer goes through. */
  ghost predicate Trace(size: nat, confirms: nat, events: seq<Event>, states: seq<State>)
    requires size > 0
  {
    && |states| == |events| + 1
    && forall i :: 0 <= i < |events| ==> states[i + 1] == Step(size, confirms, states[i], events[i])
  }

  /** From `j` on nothing happens but the indexer's own work, on a chain that stands still. */
  ghost predicate Quiet(events: seq<Event>, j: nat, canon: map<nat, Hash>) {
    forall i :: j <= i < |events| ==> events[i] == Work(canon, true)
  }

  lemma {:induction false} QuietTurns(size: nat, confirms: nat, events: seq<Event>, states: seq<State>, j: nat,
                                      canon: map<nat, Hash>, n: nat)
    requires size > 0 && Trace(size, confirms, events, states) && Quiet(events, j, canon) && j + n <= |events|
    ensures states[j + n] == Turns(size, states[j], canon, n)
  {
    hide Worked;
    if n > 0 { QuietTurns(size, confirms, events, states, j, canon, n - 1); }
  }

  /** At `j` the indexer has an update to do on the chain of `h`, and from there on it is left to its work
      for as many turns as the missing sections take. */
  ghost predicate Woken(size: nat, events: seq<Event>, states: seq<State>, j: nat, canon: map<nat, Hash>, h: Hash)
    requires j <= |events| < |states|
  {
    var s := states[j];
    && Quiet(events, j, canon) && s.phase.Idle? && s.update && s.stored < s.known
    && Reaches(s, size, canon, h, s.known - 1)
    && |events| - j >= (size + 4) * (s.known - Verified(s.heads, size, s.stored, canon))
  }

  /** When the indexer is woken and then left to its work for long enough, all the sections that it knew
      of are stored. */
  lemma CaughtUp(size: nat, confirms: nat, events: seq<Event>, states: seq<State>, j: nat, canon: map<nat, Hash>,
                 h: Hash)
    requires size > 0 && Trace(size, confirms, events, states) && j <= |events|
    requires Woken(size, events, states, j, canon, h)
    ensures var last := states[|events|]; Verified(last.heads, size, last.stored, canon) == states[j].known
  {
    hide Step, Turns, Reaches, Verified, Quiet;
    QuietTurns(size, confirms, events, states, j, canon, |events| - j);
    NeededIs(size, states[j].known - Verified(states[j].heads, size, states[j].stored, canon));
    CatchesUp(size, states[j], canon, h, |events| - j);
  }

  /** Under any interleaving the stored sections stay linked, so one look at the last of them
      makes sure of all: they end in blocks of the chain that `canon` describes. And when the indexer
      was woken at some point and then left to its work on that chain for long enough, they are all the
      sections that it knew of. */
  method Index(indexer: ChainIndexer, events: seq<Event>, canon: map<nat, Hash>)
    returns (sections: nat, ghost states: seq<State>)
    requires indexer.Valid()
    modifies indexer
    ensures indexer.Valid() && sections == indexer.storedSections && Closed(indexer.headers)
    ensures forall h :: h in indexer.headers && canon == CanonOf(indexer.headers, h) ==>
      AllCanonical(indexer.sectionHeads, indexer.sectionSize, sections, canon)
    ensures indexer.sectionSize > 0 && Trace(indexer.sectionSize, indexer.confirmsReq, events, states)
    ensures states[0] == old(indexer.Now())
    ensures indexer.Now() == Checked(indexer.sectionSize, states[|events|], canon)
    ensures forall j: nat, h :: j <= |events| && Woken(indexer.sectionSize, events, states, j, canon, h) ==>
      sections == states[j].known
  {
    hide *;
    indexer.SizeAndHeads();
    states := [indexer.Now()];
    for i := 0 to |events|
      invariant indexer.Valid() && |states| == i + 1 && states[i] == indexer.Now()
      invariant states[0] == old(indexer.Now())
      invariant forall k :: 0 <= k < i ==>
        states[k + 1] == Step(indexer.sectionSize, indexer.confirmsReq, states[k], events[k])
    {
      indexer.Do(events[i]);
      states := states + [indexer.Now()];
    }
    IsTrace(indexer.sectionSize, indexer.confirmsReq, events, states);
    indexer.NowIs();
    var last, head;
    sections, last, head := indexer.Sections(canon);
    indexer.NowIs();
    CheckedIs(indexer.sectionSize, states[|events|], canon);
    forall j: nat, h | j <= |events| && Woken(indexer.sectionSize, events, states, j, canon, h)
      ensures sections == states[j].known
    {
      CaughtUp(indexer.sectionSize, indexer.confirmsReq, events, states, j, canon, h);
    }
  }

  lemma IsTrace(size: nat, confirms: nat, events: seq<Event>, states: seq<State>)
    requires size > 0 && |states| == |events| + 1
    requires forall i :: 0 <= i < |events| ==> states[i + 1] == Step(size, confirms, states[i], events[i])
    ensures Trace(size, confirms, events, states)
  {
    hide Step;
  }

  lemma CheckedIs(size: nat, s: State, canon: map<nat, Hash>)
    ensures var k := Verified(s.heads, size, s.stored, canon);
      Checked(size, s, canon) == s.(stored := k, heads := Cut(s.heads, k))
  {
  }

  /** A notice of the common ancestor keeps canonical what was canonical before: the sections it
      leaves end at or below the ancestor. */
  lemma NoticeKeepsCanonical(s: Store, heads: map<nat, Hash>, size: nat, stored: nat, h: Hash, k: Hash, a: nat,
                             left: nat)
    requires Closed(s) && size > 0 && h in s && k in s && a <= s[h].number && a <= s[k].number
    requires Ancestor(s, h, a) == Ancestor(s, k, a) && AllCanonical(heads, size, stored, CanonOf(s, h))
    requires left <= stored && (left == 0 || LastOf(size, left - 1) <= a)
    ensures AllCanonical(Cut(heads, left), size, left, CanonOf(s, k))
  {
    hide Closed, Ancestor, LastOf, CanonOf;
    CanonEntries(s, h);
    CanonEntries(s, k);
    forall i: nat | i < left ensures i in heads && Canonical(CanonOf(s, k), LastOf(size, i)) == heads[i] {
      LastOfGrows(size, i, left - 1);
      MeetingChains(s, h, k, a, LastOf(size, i));
    }
  }

  /** Some `n` blocks fill so many sections and no more. */
  lemma SectionOf(size: nat, n: nat)
    requires size > 0
    ensures n / size >= 0 && FirstOf(size, n / size) <= n < FirstOf(size, n / size) + size
  {
    assert n == n / size * size + n % size;
  }

  lemma MoreSections(size: nat, i: nat, j: nat)
    ensures i <= j ==> FirstOf(size, i) <= FirstOf(size, j)
    ensures FirstOf(size, 0) == 0
  {
    if i <= j {
      assert FirstOf(size, j) == FirstOf(size, i) + (j - i) * size;
    }
  }

  lemma WithinSections(size: nat, head: nat, sections: nat)
    requires size > 0 && 0 < sections <= (head + 1) / size
    ensures LastOf(size, sections - 1) <= head
  {
    var q := (head + 1) / size;
    assert sections * size <= q * size <= head + 1;
  }
}

/** Conservation over runs: no block in use that no file or directory needs, and files whose counts
    are right. */
module Books {
  import opened Bytes
  import opened Geometry
  import opened Volumes
  import opened PointerTree
  import opened Ownership
  import opened Files
  import opened Release
  import opened FileSystem
  import opened Conservation
  import opened Paths
  import opened Trees
  import opened Runs
  import opened Guarantees

  // ---- nothing leaked ----

  /** Block `b` has a place in the tree of some live inode. */
  ghost predicate HasPlace(v: Volume, b: nat)
    requires Shape(v)
  {
    exists s :: Occupies(v, s, b)
  }

  /** The blocks in use that are not fixed metadata are those that fill a place. The converse, that a block
      with a place is in use and no fixed metadata, is OneOwner. */
  ghost predicate LeakFree(v: Volume)
    requires Shape(v)
  {
    forall b :: 0 <= b < |v.used| && Plain(v, b) && v.used[b] ==> HasPlace(v, b)
  }

  /** Every block in use that is not fixed metadata is on record. */
  predicate Complete(v: Volume, owner: Owners)
    requires Shape(v)
  {
    forall b :: 0 <= b < |v.used| && Plain(v, b) && v.used[b] ==> b in owner
  }

  predicate NoneLost(v: Volume, owner: Owners)
    requires Shape(v)
  {
    forall i :: 0 < i <= v.geo.inodesCount && Active(v, i) ==> NothingLost(v, owner, i)
  }

  lemma OccupantOnRecord(v: Volume, owner: Owners, s: Slot, b: nat)
    requires StoreOk(v, owner) && Occupies(v, s, b)
    ensures b in owner && owner[b] == s && InTree(v, InodeOf(v, s.inode), BlockCount(v, InodeOf(v, s.inode).size), s, b)
  {
    hide StoreOk, InTree;
    StoreOkFacts(v, owner, s.inode);
    InTreeHeld(v, owner, s.inode, BlockCount(v, InodeOf(v, s.inode).size), s, b);
  }

  lemma PlacedIfLeakFree(v: Volume, owner: Owners, i: nat)
    requires StoreOk(v, owner) && LeakFree(v) && ValidInode(v, i)
    ensures NothingLost(v, owner, i)
  {
    hide StoreOk, Mapped, Word, CeilDiv, Sound, Agreement, LeakFree;
    StoreOkFacts(v, owner, i);
    forall b | b in owner && owner[b].inode == i
      ensures InTree(v, InodeOf(v, i), BlockCount(v, InodeOf(v, i).size), owner[b], b)
      ensures owner[b].Child? ==> InodeOf(v, i).doubly != 0
    {
      RecordHasPlace(v, owner, b);
      var s :| Occupies(v, s, b);
      OccupantOnRecord(v, owner, s, b);
    }
  }

  lemma RecordHasPlace(v: Volume, owner: Owners, b: nat)
    requires Shape(v) && Recorded(v, owner) && LeakFree(v) && b in owner
    ensures HasPlace(v, b)
  {
    hide HasPlace;
    assert Plain(v, b) && v.used[b];
  }

  /** Stated by a record of owners: everything in use is on it, and everything on it has its place. */
  lemma LeakFreeMeans(v: Volume, owner: Owners)
    requires StoreOk(v, owner)
    ensures LeakFree(v) <==> Complete(v, owner) && NoneLost(v, owner)
  {
    hide StoreOk, NothingLost, Occupies, Agreement;
    StoreOkFacts(v, owner, 0);
    if LeakFree(v) {
      forall i | 0 < i <= v.geo.inodesCount && Active(v, i)
        ensures NothingLost(v, owner, i)
      {
        PlacedIfLeakFree(v, owner, i);
      }
      forall b | 0 <= b < |v.used| && Plain(v, b) && v.used[b]
        ensures b in owner
      {
        var s :| Occupies(v, s, b);
        OccupantOnRecord(v, owner, s, b);
      }
    }
    if Complete(v, owner) && NoneLost(v, owner) {
      forall b | 0 <= b < |v.used| && Plain(v, b) && v.used[b]
        ensures HasPlace(v, b)
      {
        PlacedHasPlace(v, owner, b);
      }
    }
  }

  lemma PlacedHasPlace(v: Volume, owner: Owners, b: nat)
    requires StoreOk(v, owner) && NoneLost(v, owner) && b in owner
    ensures HasPlace(v, b)
  {
    hide Mapped, Word, CeilDiv, Agreement, InodeOk;
    NullUnowned(v, owner);
    var i := owner[b].inode;
    assert Active(v, i) && NothingLost(v, owner, i);
    LostIsOutside(v, owner, i);
    assert Occupies(v, owner[b], b);
  }

  // ---- runs that lose nothing ----

  /** A sane state in which nothing leaked and the counts of every file are right. */
  ghost predicate BalancedWith(s: State, owner: Owners, home: Homes) {
    SaneWith(s, owner, home) && Complete(s.v, owner) && AllGood(s.v, owner)
  }

  ghost predicate Balanced(s: State) {
    exists owner, home :: BalancedWith(s, owner, home)
  }

  predicate AllAccounted(v: Volume)
    requires Shape(v)
  {
    forall i :: 0 < i <= v.geo.inodesCount && Active(v, i) && InodeOf(v, i).IsFile() ==> Accounted(v, i)
  }

  lemma BalancedIsSane(s: State)
    requires Balanced(s)
    ensures Shape(s.v) && Sane(s)
  {
    hide StoreOk, TreeOk, View, AllGood;
    var owner, home :| BalancedWith(s, owner, home);
    StoreOkFacts(s.v, owner, 0);
  }

  lemma GoodIsAccounted(v: Volume, owner: Owners)
    requires Shape(v) && AllGood(v, owner)
    ensures AllAccounted(v)
  {
    hide NothingLost, Accounted;
    forall i | 0 < i <= v.geo.inodesCount && Active(v, i) && InodeOf(v, i).IsFile()
      ensures Accounted(v, i)
    {
      assert Good(v, owner, i);
    }
  }

  /** What balance means without a record of owners. */
  lemma BalancedMeans(s: State)
    requires Sane(s)
    ensures Shape(s.v)
    ensures Balanced(s) <==> LeakFree(s.v) && AllAccounted(s.v)
  {
    hide StoreOk, TreeOk, View, NothingLost, Accounted, Complete, LeakFree;
    SaneShape(s);
    if Balanced(s) {
      var owner, home :| BalancedWith(s, owner, home);
      LeakFreeMeans(s.v, owner);
      GoodIsAccounted(s.v, owner);
      forall i | 0 < i <= s.v.geo.inodesCount && Active(s.v, i)
        ensures NothingLost(s.v, owner, i)
      {
        assert Good(s.v, owner, i);
      }
    }
    if LeakFree(s.v) && AllAccounted(s.v) {
      var owner, home :| SaneWith(s, owner, home);
      LeakFreeMeans(s.v, owner);
      forall i | 0 < i <= s.v.geo.inodesCount
        ensures Good(s.v, owner, i)
      {
      }
      assert BalancedWith(s, owner, home);
    }
  }

  lemma CompleteStays(v: Volume, owner: Owners, w: Volume, owner': Owners)
    requires StoreOk(v, owner) && Shape(w) && Ledger(v, owner, w, owner', 0) && Complete(v, owner) && AllGood(v, owner)
    ensures Complete(w, owner')
  {
    hide NothingLost, Accounted, Agreement, InodeOk, LostBlock;
    forall b | 0 <= b < |w.used| && Plain(w, b) && w.used[b]
      ensures b in owner'
    {
      if v.used[b] {
        assert b in owner && Good(v, owner, owner[b].inode);
        assert RecordKept(v, owner, w, owner', b);
      }
    }
  }

  lemma LostHasNoPlace(w: Volume, owner: Owners, b: nat)
    requires StoreOk(w, owner) && LostBlock(w, owner, b)
    ensures !LeakFree(w)
  {
    hide StoreOk, Occupies, Mapped;
    StoreOkFacts(w, owner, 0);
    if HasPlace(w, b) {
      var s :| Occupies(w, s, b);
      OccupantOnRecord(w, owner, s, b);
    }
  }

  lemma OneIsLost(w: Volume, owner: Owners) returns (b: nat)
    requires Shape(w) && OneLost(w, owner)
    ensures LostBlock(w, owner, b)
  {
    b :| b in owner && b < |w.used| && w.used[b] && Plain(w, b) && BehindEnd(w, owner[b]);
  }

  /** A request leaks blocks if and only if it is a write that runs out of them half-way. */
  lemma StepLeaks(s: State, op: Request)
    requires Balanced(s)
    ensures Shape(s.v)
    ensures LeakFree(Step(s, op).v) <==> !Starves(s, op)
    ensures !Starves(s, op) ==> Balanced(Step(s, op))
  {
    hide StoreOk, TreeOk, View, LeakFree, Complete, AllGood, Ledger, Step, Starves, OneLost;
    BalancedIsSane(s);
    var owner, home :| BalancedWith(s, owner, home);
    var o, h := StepWith(s, owner, home, op);
    var w := Step(s, op);
    StepKeepsSane(s, op);
    if Starves(s, op) {
      var b := OneIsLost(w.v, o);
      LostHasNoPlace(w.v, o, b);
    } else {
      CompleteStays(s.v, owner, w.v, o);
      GoodStays(s.v, owner, w.v, o);
      assert BalancedWith(w, o, h);
      BalancedMeans(w);
    }
  }

  /** Some write of the run runs out of blocks half-way. */
  predicate RunStarves(s: State, ops: seq<Request>)
    requires Shape(s.v)
    decreases |ops|
  {
    ops != [] && (Starves(s, ops[0]) || RunStarves(Step(s, ops[0]), ops[1..]))
  }

  /** What is lost at some point of a run is lost at its end. */
  lemma {:induction false} LostForGood(s: State, owner: Owners, home: Homes, ops: seq<Request>, b: nat)
    returns (owner': Owners, home': Homes)
    requires SaneWith(s, owner, home) && Shape(s.v) && LostBlock(s.v, owner, b)
    ensures SaneWith(Run(s, ops), owner', home') && LostBlock(Run(s, ops).v, owner', b)
    decreases |ops|
  {
    hide StoreOk, TreeOk, View, Step, Starves, Good, OneLost, AllGood, LostBlock;
    owner', home' := owner, home;
    if ops != [] {
      var o, h := StepWith(s, owner, home, ops[0]);
      LostStays(s.v, owner, Step(s, ops[0]).v, o, if Starves(s, ops[0]) then Target(s, ops[0]) else 0, b);
      owner', home' := LostForGood(Step(s, ops[0]), o, h, ops[1..], b);
    }
  }

  lemma LostStays(v: Volume, owner: Owners, w: Volume, owner': Owners, bad: nat, b: nat)
    requires Shape(v) && Shape(w) && Ledger(v, owner, w, owner', bad) && LostBlock(v, owner, b)
    ensures LostBlock(w, owner', b)
  {
    hide Good, RecordKept, Mapped;
  }

  /** After a run, whatever in it failed, the blocks in use are exactly those that files and directories
      need, if and only if no write of it ran out of blocks half-way; and then the counts of every file are
      right. */
  lemma {:induction false} RunKeepsBalanced(s: State, ops: seq<Request>)
    requires Balanced(s)
    ensures Shape(s.v)
    ensures LeakFree(Run(s, ops).v) <==> !RunStarves(s, ops)
    ensures !RunStarves(s, ops) ==> Balanced(Run(s, ops)) && AllAccounted(Run(s, ops).v)
    decreases |ops|
  {
    hide LeakFree, Step, Starves, SaneWith, AllAccounted, Complete, AllGood, LostBlock;
    BalancedIsSane(s);
    if ops == [] {
      BalancedMeans(s);
    } else if !Starves(s, ops[0]) {
      StepLeaks(s, ops[0]);
      RunKeepsBalanced(Step(s, ops[0]), ops[1..]);
    } else {
      var o, h, b := StarvingLoses(s, ops[0]);
      var o2, h2 := LostForGood(Step(s, ops[0]), o, h, ops[1..], b);
      SaneStore(Run(s, ops), o2, h2);
      LostHasNoPlace(Run(s, ops).v, o2, b);
    }
  }

  lemma SaneStore(s: State, owner: Owners, home: Homes)
    requires SaneWith(s, owner, home)
    ensures StoreOk(s.v, owner)
  {
    hide StoreOk, TreeOk, View;
  }

  lemma StarvingLoses(s: State, op: Request) returns (owner: Owners, home: Homes, b: nat)
    requires Balanced(s)
    ensures Shape(s.v)
    ensures Starves(s, op) ==> SaneWith(Step(s, op), owner, home) && LostBlock(Step(s, op).v, owner, b)
  {
    hide StoreOk, TreeOk, View, Complete, AllGood, Ledger, Step, Starves, OneLost, LostBlock;
    BalancedIsSane(s);
    var o, h :| BalancedWith(s, o, h);
    owner, home := StepWith(s, o, h, op);
    b := 0;
    if Starves(s, op) {
      b := OneIsLost(Step(s, op).v, owner);
    }
  }

  // ---- one file over a run ----

  /** Some write of the run to inode `i` runs out of blocks half-way. */
  predicate RunStarvesOne(s: State, ops: seq<Request>, i: nat)
    requires Shape(s.v)
    decreases |ops|
  {
    ops != [] && ((Starves(s, ops[0]) && Target(s, ops[0]) == i) || RunStarvesOne(Step(s, ops[0]), ops[1..], i))
  }

  /** `owner'` continues the record `owner` over the run, honestly at each step. */
  ghost predicate Continues(s: State, owner: Owners, ops: seq<Request>, owner': Owners)
    requires Shape(s.v)
    decreases |ops|
  {
    if ops == [] then owner' == owner
    else
      exists o, bad ::
        Ledger(s.v, owner, Step(s, ops[0]).v, o, bad) && Continues(Step(s, ops[0]), o, ops[1..], owner')
  }

  /** Whatever happens to other files: after a run in which no write to inode `i` ran out of blocks
      half-way, nothing that `i` was ever given is lost, and if it is a file its counts are right. */
  lemma {:induction false} RunKeepsFile(s: State, owner: Owners, home: Homes, ops: seq<Request>, i: nat)
    returns (owner': Owners, home': Homes)
    requires SaneWith(s, owner, home) && Shape(s.v) && ValidInode(s.v, i) && Good(s.v, owner, i)
    ensures !RunStarvesOne(s, ops, i) ==>
      && SaneWith(Run(s, ops), owner', home') && Continues(s, owner, ops, owner')
      && Good(Run(s, ops).v, owner', i)
    decreases |ops|
  {
    hide StoreOk, TreeOk, View, Ledger, Step, Starves, Good, OneLost, AllGood;
    owner', home' := owner, home;
    if ops != [] {
      var o, h := StepWith(s, owner, home, ops[0]);
      var s1 := Step(s, ops[0]);
      var bad := if Starves(s, ops[0]) then Target(s, ops[0]) else 0;
      if bad != i {
        StaysGood(s.v, owner, s1.v, o, bad, i);
        owner', home' := RunKeepsFile(s1, o, h, ops[1..], i);
      }
    }
  }

  lemma StaysGood(v: Volume, owner: Owners, w: Volume, owner': Owners, bad: nat, i: nat)
    requires Shape(v) && Shape(w) && Ledger(v, owner, w, owner', bad) && Good(v, owner, i) && ValidInode(v, i)
    requires i != bad
    ensures Good(w, owner', i) && ValidInode(w, i)
  {
    hide Good, RecordKept, LostBlock;
  }
}

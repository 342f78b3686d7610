/** Exactly one entry for every file and directory: when runs keep it, and what follows from it. */
module Entries {
  import opened Bytes
  import opened Volumes
  import opened Ownership
  import opened Files
  import opened DirBlock
  import opened Directories
  import opened FileSystem
  import opened Paths
  import opened Trees
  import opened Runs
  import opened Guarantees

  /** A sane state in which every live inode but the root has an entry. */
  ghost predicate TidyWith(s: State, owner: Owners, home: Homes) {
    SaneWith(s, owner, home) && NoneLoose(View(s.v), home)
  }

  ghost predicate Tidy(s: State) {
    exists owner, home :: TidyWith(s, owner, home)
  }

  lemma TidyIsSane(s: State)
    requires Tidy(s)
    ensures Shape(s.v) && Sane(s)
  {
    hide StoreOk, TreeOk, View, NoneLoose;
    var owner, home :| TidyWith(s, owner, home);
    StoreOkFacts(s.v, owner, s.cur);
  }

  /** In a tidy state each live inode but the root is named by one entry other than "." and "..". */
  lemma ExactlyOneEntry(s: State, i: nat) returns (d: nat, n: Name)
    requires Tidy(s)
    ensures Shape(s.v)
    ensures i in View(s.v) && i != ROOT ==>
      && Binds(View(s.v), d, n) && View(s.v)[d].entries[n] == i
      && forall e, m :: Binds(View(s.v), e, m) && View(s.v)[e].entries[m] == i ==> e == d && m == n
  {
    hide StoreOk, TreeOk, View, NoneLoose;
    TidyIsSane(s);
    var owner: Owners, home: Homes :| TidyWith(s, owner, home);
    d, n := ROOT, [];
    if i in View(s.v) && i != ROOT {
      OneEntry(View(s.v), home, i);
      d, n := home[i].dir, home[i].name;
    }
  }

  lemma OneEntry(t: Tree, home: Homes, i: nat)
    requires TreeOk(t, home) && NoneLoose(t, home) && i in t && i != ROOT
    ensures i in home && Binds(t, home[i].dir, home[i].name) && t[home[i].dir].entries[home[i].name] == i
    ensures forall e, m :: Binds(t, e, m) && t[e].entries[m] == i ==> e == home[i].dir && m == home[i].name
  {
    hide TreeOk;
    assert BoundAtHome(t, home, i);
    forall e, m | Binds(t, e, m) && t[e].entries[m] == i
      ensures e == home[i].dir && m == home[i].name
    {
      BoundOnce(t, home, home[i].dir, home[i].name, e, m);
    }
  }

  /** And it is reached from the root by following names downwards. */
  lemma ReachedFromRoot(s: State, i: nat) returns (names: seq<Name>)
    requires Tidy(s)
    ensures Shape(s.v)
    ensures i in View(s.v) ==>
      Walk(View(s.v), ROOT, names) == Some(i) && forall k :: 0 <= k < |names| ==> !Dotted(names[k])
  {
    hide StoreOk, TreeOk, View, NoneLoose, Walk;
    TidyIsSane(s);
    var owner, home :| TidyWith(s, owner, home);
    names := [];
    if i in View(s.v) {
      names := Route(View(s.v), home, i);
      Reached(View(s.v), home, i);
    }
  }

  /** A sane state is tidy exactly when no live inode is bound nowhere. */
  lemma TidyMeansNoneLoose(s: State)
    requires Sane(s)
    ensures Shape(s.v)
    ensures Tidy(s) <==> forall i :: !Loose(View(s.v), i)
  {
    hide StoreOk, TreeOk, View, NoneLoose, Loose;
    SaneShape(s);
    var owner, home :| SaneWith(s, owner, home);
    if !NoneLoose(View(s.v), home) {
      var i := NotHomeIsLoose(View(s.v), home);
    } else {
      assert TidyWith(s, owner, home);
    }
    if Tidy(s) {
      var o, h :| TidyWith(s, o, h);
      forall i
        ensures !Loose(View(s.v), i)
      {
        if Loose(View(s.v), i) {
          LooseIsNotBound(View(s.v), h, i);
        }
      }
    }
  }

  /** A request keeps a tidy state tidy if and only if it is not one that leaves an inode loose. */
  lemma StepKeepsTidy(s: State, op: Request)
    requires Tidy(s)
    ensures Shape(s.v)
    ensures Tidy(Step(s, op)) <==> !LeavesLoose(s, op)
  {
    hide StoreOk, TreeOk, View, NoneLoose, Loose, LeavesLoose, Step;
    TidyIsSane(s);
    var owner, home :| TidyWith(s, owner, home);
    var o, h := StepWith(s, owner, home, op);
    StepKeepsSane(s, op);
    TidyMeansNoneLoose(Step(s, op));
    if !LeavesLoose(s, op) {
      assert TidyWith(Step(s, op), o, h);
    }
  }

  /** Some request of the run leaves an inode loose. */
  predicate RunLeavesLoose(s: State, ops: seq<Request>)
    requires Shape(s.v)
    decreases |ops|
  {
    ops != [] && (LeavesLoose(s, ops[0]) || RunLeavesLoose(Step(s, ops[0]), ops[1..]))
  }

  /** What is bound nowhere at some point of a run is so at its end. */
  lemma {:induction false} LooseForGood(s: State, ops: seq<Request>, i: nat)
    requires Sane(s)
    ensures Shape(s.v)
    ensures Loose(View(s.v), i) ==> Loose(View(Run(s, ops).v), i)
    decreases |ops|
  {
    hide StoreOk, TreeOk, View, NoneLoose, Loose, LeavesLoose, Step;
    SaneShape(s);
    if ops != [] {
      var owner, home :| SaneWith(s, owner, home);
      var o, h := StepWith(s, owner, home, ops[0]);
      StepKeepsSane(s, ops[0]);
      LooseForGood(Step(s, ops[0]), ops[1..], i);
    }
  }

  /** After a run every file and directory has exactly one entry, if and only if no request of the run
      was one that leaves an inode loose. */
  lemma {:induction false} RunKeepsTidy(s: State, ops: seq<Request>)
    requires Tidy(s)
    ensures Shape(s.v)
    ensures Tidy(Run(s, ops)) <==> !RunLeavesLoose(s, ops)
    decreases |ops|
  {
    hide StoreOk, TreeOk, View, NoneLoose, Loose, LeavesLoose, Step, TidyWith;
    TidyIsSane(s);
    if ops != [] {
      StepKeepsTidy(s, ops[0]);
      StepKeepsSane(s, ops[0]);
      var s1 := Step(s, ops[0]);
      if LeavesLoose(s, ops[0]) {
        TidyMeansNoneLoose(s1);
        var i :| Loose(View(s1.v), i);
        LooseForGood(s1, ops[1..], i);
        RunKeepsSane(s1, ops[1..]);
        TidyMeansNoneLoose(Run(s1, ops[1..]));
      } else {
        RunKeepsTidy(s1, ops[1..]);
      }
    }
  }
}

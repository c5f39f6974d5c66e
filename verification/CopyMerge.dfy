/** MergeDictionaryIntoDictionary of AppleUSBMergeNub.c, which merges sub-dictionaries into copies. A
    copy that cannot be made ends the loop over the keys, but the reply stays that of the key before:
    a merge that was cut short can report success. What happens is described by a run; which runs can
    report success although something is missing is decided from the two dictionaries alone. */
module CopyMerge {
  import opened DictionaryMerge

  // ---------- runs ----------

  // How the loop over the keys ends: all keys are done, a copy could not be made, a key could not be
  // set, or the merge of two sub-dictionaries reported failure.
  datatype Stop = Through | NoCopy(key: string) | NotSet(key: string) | Refused(key: string)

  // The keys that were done, the end, and the run for each key under which a copy was merged into.
  datatype Run = Run(done: set<string>, stop: Stop, below: map<string, Run>)

  /** The reply: that of the last step that had one. */
  predicate Replied(r: Run) {
    r.done != {} && (r.stop.Through? || r.stop.NoCopy?)
  }

  predicate BothAt(t: map<string, Tree>, s: map<string, Tree>, k: string) {
    k in t && k in s && t[k].Dictionary? && s[k].Dictionary?
  }

  // The keys under which a copy was merged into.
  function Entered(t: map<string, Tree>, s: map<string, Tree>, done: set<string>, stop: Stop): set<string> {
    set k | k in s && BothAt(t, s, k) && (k in done || stop == NotSet(k) || stop == Refused(k))
  }

  /** The runs of a merge of s into t: in any order of the keys, and with any failures. */
  predicate Possible(t: Tree, s: Tree, r: Run)
    decreases s
  {
    && t.Dictionary? && s.Dictionary? && r.done <= s.children.Keys
    && r.below.Keys == Entered(t.children, s.children, r.done, r.stop)
    && Ends(t.children, s.children, r)
    && (forall k :: k in r.below && k in t.children && k in s.children ==>
          Possible(t.children[k], s.children[k], r.below[k]))
  }

  predicate Ends(t: map<string, Tree>, s: map<string, Tree>, r: Run)
    requires r.below.Keys == Entered(t, s, r.done, r.stop)
  {
    && (forall k :: k in r.below && r.stop != Refused(k) ==> Replied(r.below[k]))
    && match r.stop
       case Through => r.done == s.Keys
       case NoCopy(k) => k !in r.done && BothAt(t, s, k)
       case NotSet(k) => k !in r.done && k in s
       case Refused(k) => k !in r.done && BothAt(t, s, k) && !Replied(r.below[k])
  }

  // What is under a key once it is done.
  function GotAt(t: map<string, Tree>, s: map<string, Tree>, r: Run, k: string): Tree
    requires k in s
    decreases r, 0
  {
    if BothAt(t, s, k) && k in r.below then Got(t[k], s[k], r.below[k]) else s[k]
  }

  function GotOn(t: map<string, Tree>, s: map<string, Tree>, r: Run): map<string, Tree>
    decreases r, 1
  {
    map k | k in t.Keys + r.done * s.Keys :: if k in r.done && k in s then GotAt(t, s, r, k) else t[k]
  }

  /** What a run makes of the target. */
  function Got(t: Tree, s: Tree, r: Run): Tree
    decreases r, 2
  {
    if t.Dictionary? && s.Dictionary? then Dictionary(GotOn(t.children, s.children, r)) else s
  }

  // ---------- without a failed copy ----------

  // No copy failed, here or further down; and no key failed to be set.
  predicate CopiesLast(r: Run) {
    !r.stop.NoCopy? && forall k :: k in r.below ==> CopiesLast(r.below[k])
  }

  predicate SetsLast(r: Run) {
    !r.stop.NotSet? && forall k :: k in r.below ==> SetsLast(r.below[k])
  }

  /** As long as every copy can be made, the reply is true exactly when every key can be set and no
      empty dictionary of the source meets a dictionary; and then the target is the deep merge. */
  lemma {:induction false} TrueWithCopies(t: Tree, s: Tree, r: Run)
    requires Possible(t, s, r) && CopiesLast(r)
    ensures Replied(r) <==> SetsLast(r) && Mergeable(t, s)
    ensures Replied(r) ==> Got(t, s, r) == DeepMerge(t, s)
    decreases s
  {
    forall k | k in r.below
      ensures k in t.children && k in s.children
      ensures Replied(r.below[k]) <==> SetsLast(r.below[k]) && Mergeable(t.children[k], s.children[k])
      ensures Replied(r.below[k]) ==>
        Got(t.children[k], s.children[k], r.below[k]) == DeepMerge(t.children[k], s.children[k])
    {
      TrueWithCopies(t.children[k], s.children[k], r.below[k]);
    }
    if Replied(r) {
      AllDone(t.children, s.children, r);
    }
  }

  lemma AllDone(t: map<string, Tree>, s: map<string, Tree>, r: Run)
    requires r.done == s.Keys && r.below.Keys == Entered(t, s, r.done, r.stop)
    requires forall k :: k in r.below ==> k in t && k in s && Got(t[k], s[k], r.below[k]) == DeepMerge(t[k], s[k])
    ensures Got(Dictionary(t), Dictionary(s), r) == DeepMerge(Dictionary(t), Dictionary(s))
  {
    assert GotOn(t, s, r) == DeepMerge(Dictionary(t), Dictionary(s)).children;
  }

  // ---------- whatever fails ----------

  /** The target has everything the source has. */
  predicate Covers(t: Tree, s: Tree)
    decreases s
  {
    if s.Plain? then t == s
    else t.Dictionary? && forall k :: k in s.children ==> k in t.children && Covers(t.children[k], s.children[k])
  }

  lemma {:induction false} CoveredIsMerged(t: Tree, s: Tree)
    ensures DeepMerge(t, s) == t <==> Covers(t, s)
    decreases s
  {
    if s.Dictionary? && t.Dictionary? {
      var m := DeepMerge(t, s);
      forall k | k in s.children && k in t.children
        ensures DeepMerge(t.children[k], s.children[k]) == t.children[k] <==> Covers(t.children[k], s.children[k])
      {
        CoveredIsMerged(t.children[k], s.children[k]);
      }
      if Covers(t, s) {
        assert m.children == t.children;
      } else {
        var k :| k in s.children && !(k in t.children && Covers(t.children[k], s.children[k]));
        assert k in m.children;
      }
    }
  }

  predicate CoversAt(t: map<string, Tree>, s: map<string, Tree>, k: string)
    requires k in s
  {
    k in t && Covers(t[k], s[k])
  }

  /** Whatever was left undone, here or further down, was there before. */
  predicate NothingMissing(t: Tree, s: Tree, r: Run)
    requires t.Dictionary? && s.Dictionary?
    decreases r
  {
    && (forall k :: k in s.children && k !in r.done ==> CoversAt(t.children, s.children, k))
    && (forall k :: k in r.done && k in r.below && BothAt(t.children, s.children, k) ==>
          NothingMissing(t.children[k], s.children[k], r.below[k]))
  }

  // The key is done, and done in full, or left undone and not missing.
  predicate RightAt(t: map<string, Tree>, s: map<string, Tree>, r: Run, k: string)
    requires k in s
  {
    if k !in r.done then CoversAt(t, s, k)
    else BothAt(t, s, k) && k in r.below ==> NothingMissing(t[k], s[k], r.below[k])
  }

  lemma DeepMergeAt(t: map<string, Tree>, s: map<string, Tree>)
    ensures DeepMerge(Dictionary(t), Dictionary(s)) == Dictionary(MergedOn(t, s, s.Keys))
  {
    MergedOnAll(t, s);
  }

  // If every key is right, so is the whole; and one that is not shows.
  lemma KeysDecide(t: map<string, Tree>, s: map<string, Tree>, r: Run)
    requires r.done <= s.Keys
    requires forall k :: k in s ==>
      (RightAt(t, s, r, k) <==>
        if k in r.done then GotAt(t, s, r, k) == MergedAt(t, s, k) else k in t && t[k] == MergedAt(t, s, k))
    ensures GotOn(t, s, r) == MergedOn(t, s, s.Keys) <==> forall k :: k in s ==> RightAt(t, s, r, k)
  {
    var g, m := GotOn(t, s, r), MergedOn(t, s, s.Keys);
    if forall k :: k in s ==> RightAt(t, s, r, k) {
      assert forall k :: k in g <==> k in m;
      assert g == m;
    }
    if g == m {
      forall k | k in s
        ensures RightAt(t, s, r, k)
      {
        assert k in m && k in g && g[k] == m[k];
      }
    }
  }

  /** Exactly when a run ends with the deep merge. */
  lemma {:induction false} MergedExactly(t: Tree, s: Tree, r: Run)
    requires Possible(t, s, r)
    ensures Got(t, s, r) == DeepMerge(t, s) <==> NothingMissing(t, s, r)
    decreases s
  {
    var tc, sc := t.children, s.children;
    forall k | k in sc
      ensures RightAt(tc, sc, r, k) <==>
        if k in r.done then GotAt(tc, sc, r, k) == MergedAt(tc, sc, k) else k in tc && tc[k] == MergedAt(tc, sc, k)
    {
      if k !in r.done {
        if k in tc {
          CoveredIsMerged(tc[k], sc[k]);
        }
      } else if BothAt(tc, sc, k) {
        MergedExactly(tc[k], sc[k], r.below[k]);
      }
    }
    KeysDecide(tc, sc, r);
    DeepMergeAt(tc, sc);
    assert NothingMissing(t, s, r) <==> forall k :: k in sc ==> RightAt(tc, sc, r, k);
  }

  // ---------- which dictionaries are safe ----------

  /** Some run can report success: some key needs no copy, or the merge below it can succeed. */
  predicate CanReply(t: Tree, s: Tree)
    decreases s
  {
    && t.Dictionary? && s.Dictionary?
    && exists k :: k in s.children && (BothAt(t.children, s.children, k) ==> CanReply(t.children[k], s.children[k]))
  }

  predicate Doable(t: map<string, Tree>, s: map<string, Tree>, k: string)
    requires k in s
  {
    BothAt(t, s, k) ==> CanReply(t[k], s[k])
  }

  // A copy for one key can fail after the step for another, while something but the latter is missing.
  predicate CutShort(t: map<string, Tree>, s: map<string, Tree>, k: string, j: string, u: string) {
    BothAt(t, s, k) && j in s && j != k && Doable(t, s, j) && u in s && u != j && !CoversAt(t, s, u)
  }

  /** A merge of s into t, or of sub-dictionaries further down, can be cut short with a true reply. */
  predicate Risky(t: Tree, s: Tree)
    decreases s
  {
    && t.Dictionary? && s.Dictionary?
    && ((exists k, j, u :: k in s.children && j in s.children && u in s.children
           && CutShort(t.children, s.children, k, j, u))
        || (exists k :: k in s.children && BothAt(t.children, s.children, k) && Risky(t.children[k], s.children[k])))
  }

  lemma {:induction false} RepliedCan(t: Tree, s: Tree, r: Run)
    requires Possible(t, s, r) && Replied(r)
    ensures CanReply(t, s)
    decreases s
  {
    var j :| j in r.done;
    if BothAt(t.children, s.children, j) {
      RepliedCan(t.children[j], s.children[j], r.below[j]);
    }
  }

  lemma {:induction false} MissingIsRisky(t: Tree, s: Tree, r: Run)
    requires Possible(t, s, r) && Replied(r) && !NothingMissing(t, s, r)
    ensures Risky(t, s)
    decreases s
  {
    var tc, sc := t.children, s.children;
    if u :| u in sc && u !in r.done && !CoversAt(tc, sc, u) {
      var k, j := r.stop.key, AnyOf(r.done);
      if BothAt(tc, sc, j) {
        RepliedCan(tc[j], sc[j], r.below[j]);
      }
      assert CutShort(tc, sc, k, j, u);
    } else {
      var k :| k in r.done && k in r.below && BothAt(tc, sc, k) && !NothingMissing(tc[k], sc[k], r.below[k]);
      MissingIsRisky(tc[k], sc[k], r.below[k]);
    }
  }

  ghost function AnyOf(keys: set<string>): (k: string)
    requires keys != {}
    ensures k in keys
  {
    var k :| k in keys; k
  }

  ghost function DoableKeys(t: map<string, Tree>, s: map<string, Tree>): set<string> {
    set k | k in s && Doable(t, s, k)
  }

  // All that can be done, and then a copy fails if anything is left.
  ghost function EndOf(s: map<string, Tree>, done: set<string>): Stop {
    if s.Keys - done == {} then Through else NoCopy(AnyOf(s.Keys - done))
  }

  // A run that does all it can.
  ghost function BestRun(t: Tree, s: Tree): Run
    requires t.Dictionary? && s.Dictionary?
    decreases s
  {
    var tc, sc := t.children, s.children;
    var done := DoableKeys(tc, sc);
    Run(done, EndOf(sc, done), map k | k in sc && k in done && BothAt(tc, sc, k) :: BestRun(tc[k], sc[k]))
  }

  lemma {:induction false} BestRunReplies(t: Tree, s: Tree)
    requires CanReply(t, s)
    ensures Possible(t, s, BestRun(t, s)) && Replied(BestRun(t, s))
    decreases s
  {
    var tc, sc, r := t.children, s.children, BestRun(t, s);
    forall k | k in r.below
      ensures k in tc && k in sc && Possible(tc[k], sc[k], r.below[k]) && Replied(r.below[k])
    {
      BestRunReplies(tc[k], sc[k]);
    }
    assert r.below.Keys == Entered(tc, sc, r.done, r.stop);
    var k :| k in sc && Doable(tc, sc, k);
    assert k in r.done;
    if r.stop.Through? {
      assert forall x :: x in sc.Keys ==> x !in sc.Keys - r.done;
      assert r.done == sc.Keys;
    }
  }

  // The run that is cut at k after j alone.
  lemma CutRun(t: Tree, s: Tree, k: string, j: string, u: string) returns (r: Run)
    requires t.Dictionary? && s.Dictionary? && CutShort(t.children, s.children, k, j, u)
    ensures Possible(t, s, r) && Replied(r) && !NothingMissing(t, s, r)
  {
    var tc, sc := t.children, s.children;
    if BothAt(tc, sc, j) {
      BestRunReplies(tc[j], sc[j]);
      r := Run({j}, NoCopy(k), map[j := BestRun(tc[j], sc[j])]);
    } else {
      r := Run({j}, NoCopy(k), map[]);
    }
    assert r.below.Keys == Entered(tc, sc, r.done, r.stop);
    assert u !in r.done;
  }

  lemma {:induction false} RiskyRun(t: Tree, s: Tree) returns (r: Run)
    requires Risky(t, s)
    ensures Possible(t, s, r) && Replied(r) && !NothingMissing(t, s, r)
    decreases s
  {
    var tc, sc := t.children, s.children;
    if k, j, u :| CutShort(tc, sc, k, j, u) {
      r := CutRun(t, s, k, j, u);
    } else {
      var k :| k in sc && BothAt(tc, sc, k) && Risky(tc[k], sc[k]);
      var bad := RiskyRun(tc[k], sc[k]);
      RepliedCan(tc[k], sc[k], bad);
      BestRunReplies(t, s);
      var best := BestRun(t, s);
      r := Swapped(t, s, best, k, bad);
    }
  }

  // A run stays possible with another run below.
  lemma Swapped(t: Tree, s: Tree, best: Run, k: string, bad: Run) returns (r: Run)
    requires Possible(t, s, best) && Replied(best) && k in s.children && BothAt(t.children, s.children, k)
    requires k in best.done && k in best.below
    requires Possible(t.children[k], s.children[k], bad) && Replied(bad)
    requires !NothingMissing(t.children[k], s.children[k], bad)
    ensures Possible(t, s, r) && Replied(r) && !NothingMissing(t, s, r)
  {
    r := Run(best.done, best.stop, best.below[k := bad]);
    assert r.below.Keys == best.below.Keys;
    assert Ends(t.children, s.children, r);
    assert r.below[k] == bad;
  }

  /** For which dictionaries a true reply means the deep merge, whatever fails and in whatever order the
      keys come. */
  lemma TrustedExactly(t: Tree, s: Tree)
    ensures (forall r :: Possible(t, s, r) && Replied(r) ==> Got(t, s, r) == DeepMerge(t, s)) <==> !Risky(t, s)
  {
    if Risky(t, s) {
      var r := RiskyRun(t, s);
      MergedExactly(t, s, r);
    } else {
      forall r | Possible(t, s, r) && Replied(r)
        ensures Got(t, s, r) == DeepMerge(t, s)
      {
        MergedExactly(t, s, r);
        if !NothingMissing(t, s, r) {
          MissingIsRisky(t, s, r);
        }
      }
    }
  }

  // ---------- a second time ----------

  /** Merging what is there already changes nothing, however far it gets. */
  lemma {:induction false} CoveredStays(t: Tree, s: Tree, r: Run)
    requires Possible(t, s, r) && Covers(t, s)
    ensures Got(t, s, r) == t
    decreases s
  {
    forall k | k in r.done
      ensures GotAt(t.children, s.children, r, k) == t.children[k]
    {
      if BothAt(t.children, s.children, k) {
        CoveredStays(t.children[k], s.children[k], r.below[k]);
      }
    }
    assert GotOn(t.children, s.children, r) == t.children;
  }

  /** So does merging the same source again, after it was merged in full. */
  lemma AgainByCopies(t: Tree, s: Tree, r: Run)
    requires Possible(DeepMerge(t, s), s, r)
    ensures Got(DeepMerge(t, s), s, r) == DeepMerge(t, s)
  {
    MergeTwice(t, s);
    CoveredIsMerged(DeepMerge(t, s), s);
    CoveredStays(DeepMerge(t, s), s, r);
  }

  // ---------- the merge ----------

  // What the environment does is taken from a plan: which keys come first, which copy or which key
  // fails, and the same for each merge below. It need not be a possible run.
  const ANY := Run({}, Through, map[])

  function PlanBelow(plan: Run, k: string): Run {
    if k in plan.below then plan.below[k] else ANY
  }

  datatype Outcome = Done | CopyFails | SetFails | Refuses

  // How one more key changes what the target is.
  function WithKey(now: map<string, Tree>, s: map<string, Tree>, k: string, sub: Run): map<string, Tree>
    requires k in s
  {
    now[k := if BothAt(now, s, k) then Got(now[k], s[k], sub) else s[k]]
  }

  // The merge of s into t that was to go by this plan replied ok and was run r.
  ghost predicate Fits(t: Tree, s: Tree, plan: Run, ok: bool, r: Run) {
    Possible(t, s, r) && ok == Replied(r) && (Possible(t, s, plan) ==> r == plan)
  }

  ghost predicate FitsBelow(now: map<string, Tree>, s: map<string, Tree>, k: string, plan: Run, ok: bool, sub: Run)
    requires k in s
  {
    BothAt(now, s, k) ==> Fits(now[k], s[k], PlanBelow(plan, k), ok, sub)
  }

  // The outcome of one key, and the run below it.
  ghost predicate StepFits(now: map<string, Tree>, s: map<string, Tree>, k: string, plan: Run,
      outcome: Outcome, sub: Run)
    requires k in s
  {
    match outcome
    case CopyFails => BothAt(now, s, k) && plan.stop == NoCopy(k)
    case Refuses => BothAt(now, s, k) && plan.stop != NoCopy(k) && FitsBelow(now, s, k, plan, false, sub)
    case SetFails => plan.stop == NotSet(k) && FitsBelow(now, s, k, plan, true, sub)
    case Done =>
      plan.stop != NotSet(k) && (BothAt(now, s, k) ==> plan.stop != NoCopy(k)) && FitsBelow(now, s, k, plan, true, sub)
  }

  // The run so far, while the loop goes on.
  ghost predicate Building(t: map<string, Tree>, s: map<string, Tree>, r: Run, plan: Run) {
    && r.stop == Through && r.done <= s.Keys && r.below.Keys == Entered(t, s, r.done, Through)
    && (forall k :: k in r.below && k in t && k in s ==> Possible(t[k], s[k], r.below[k]) && Replied(r.below[k]))
    && (Possible(Dictionary(t), Dictionary(s), plan) ==> Follows(r, plan))
  }

  ghost predicate Follows(r: Run, plan: Run) {
    r.done <= plan.done && forall k :: k in r.below ==> k in plan.below && r.below[k] == plan.below[k]
  }

  // The next key, as the plan has it.
  ghost predicate IsNext(s: map<string, Tree>, r: Run, plan: Run, k: string) {
    k in plan.done || (r.done == plan.done && (plan.stop.Through? || k == plan.stop.key))
  }

  function Extended(t: map<string, Tree>, s: map<string, Tree>, r: Run, k: string, sub: Run): Run {
    Run(r.done + {k}, Through, if BothAt(t, s, k) then r.below[k := sub] else r.below)
  }

  lemma SameBoth(t: map<string, Tree>, s: map<string, Tree>, r: Run, k: string)
    requires k !in r.done && k in s
    ensures BothAt(GotOn(t, s, r), s, k) == BothAt(t, s, k)
    ensures BothAt(t, s, k) ==> GotOn(t, s, r)[k] == t[k]
  {}

  lemma GotOneMore(t: map<string, Tree>, s: map<string, Tree>, r: Run, k: string, sub: Run)
    requires k !in r.done && k in s && r.done <= s.Keys
    ensures WithKey(GotOn(t, s, r), s, k, sub) == GotOn(t, s, Extended(t, s, r, k, sub))
  {
    SameBoth(t, s, r, k);
  }

  // A key that is done while the plan is possible is one of those the plan has done.
  lemma DoneIsPlanned(t: map<string, Tree>, s: map<string, Tree>, r: Run, plan: Run, k: string, sub: Run)
    requires Possible(Dictionary(t), Dictionary(s), plan) && IsNext(s, r, plan, k) && k in s && k !in r.done
    requires r.done <= plan.done && StepFits(t, s, k, plan, Done, sub)
    ensures k in plan.done && (BothAt(t, s, k) ==> k in plan.below && sub == plan.below[k])
  {}

  lemma EnteredMore(t: map<string, Tree>, s: map<string, Tree>, r: Run, k: string, sub: Run)
    requires r.below.Keys == Entered(t, s, r.done, Through) && k in s
    ensures Extended(t, s, r, k, sub).below.Keys == Entered(t, s, r.done + {k}, Through)
  {}

  lemma FollowsOn(t: map<string, Tree>, s: map<string, Tree>, r: Run, plan: Run, k: string, sub: Run)
    requires Follows(r, plan) && k in plan.done && (BothAt(t, s, k) ==> k in plan.below && sub == plan.below[k])
    ensures Follows(Extended(t, s, r, k, sub), plan)
  {}

  lemma StepIsDone(t: map<string, Tree>, s: map<string, Tree>, r: Run, plan: Run, k: string, sub: Run)
    requires Building(t, s, r, plan) && k in s && k !in r.done && StepFits(t, s, k, plan, Done, sub)
    requires Possible(Dictionary(t), Dictionary(s), plan) ==> IsNext(s, r, plan, k)
    ensures Building(t, s, Extended(t, s, r, k, sub), plan)
  {
    EnteredMore(t, s, r, k, sub);
    if Possible(Dictionary(t), Dictionary(s), plan) {
      DoneIsPlanned(t, s, r, plan, k, sub);
      FollowsOn(t, s, r, plan, k, sub);
    }
  }

  function StopFor(outcome: Outcome, k: string): Stop {
    match outcome
    case Done => Through
    case CopyFails => NoCopy(k)
    case SetFails => NotSet(k)
    case Refuses => Refused(k)
  }

  function Ended(t: map<string, Tree>, s: map<string, Tree>, r: Run, outcome: Outcome, k: string, sub: Run): Run {
    Run(r.done, StopFor(outcome, k), if BothAt(t, s, k) && outcome != CopyFails then r.below[k := sub] else r.below)
  }

  lemma GotEnded(t: map<string, Tree>, s: map<string, Tree>, r: Run, outcome: Outcome, k: string, sub: Run)
    requires k !in r.done
    ensures GotOn(t, s, Ended(t, s, r, outcome, k, sub)) == GotOn(t, s, r)
  {}

  lemma StepIsLast(t: map<string, Tree>, s: map<string, Tree>, r: Run, plan: Run, k: string,
      outcome: Outcome, sub: Run)
    requires Building(t, s, r, plan) && k in s && k !in r.done
    requires StepFits(t, s, k, plan, outcome, sub) && outcome != Done
    requires Possible(Dictionary(t), Dictionary(s), plan) ==> IsNext(s, r, plan, k)
    ensures var e := Ended(t, s, r, outcome, k, sub);
      Fits(Dictionary(t), Dictionary(s), plan, r.done != {} && outcome == CopyFails, e)
  {
    var e := Ended(t, s, r, outcome, k, sub);
    EnteredAtLast(t, s, r, outcome, k, sub);
    assert Possible(Dictionary(t), Dictionary(s), e);
    if Possible(Dictionary(t), Dictionary(s), plan) {
      LastIsPlanned(t, s, r, plan, k, outcome, sub);
    }
  }

  // A step that fails while the plan is possible is the one at which the plan ends.
  lemma FailureIsPlanned(t: map<string, Tree>, s: map<string, Tree>, r: Run, plan: Run, k: string,
      outcome: Outcome, sub: Run)
    requires Possible(Dictionary(t), Dictionary(s), plan) && IsNext(s, r, plan, k) && k in s && k !in r.done
    requires StepFits(t, s, k, plan, outcome, sub) && outcome != Done
    ensures plan.done == r.done && plan.stop == StopFor(outcome, k)
    ensures BothAt(t, s, k) && outcome != CopyFails ==> k in plan.below && plan.below[k] == sub
  {}

  lemma LastIsPlanned(t: map<string, Tree>, s: map<string, Tree>, r: Run, plan: Run, k: string,
      outcome: Outcome, sub: Run)
    requires Building(t, s, r, plan) && k in s && k !in r.done
    requires StepFits(t, s, k, plan, outcome, sub) && outcome != Done
    requires Possible(Dictionary(t), Dictionary(s), plan) && IsNext(s, r, plan, k)
    ensures Ended(t, s, r, outcome, k, sub) == plan
  {
    FailureIsPlanned(t, s, r, plan, k, outcome, sub);
    EnteredAtLast(t, s, r, outcome, k, sub);
    var e := Ended(t, s, r, outcome, k, sub);
    SameMap(e.below, plan.below, Entered(t, s, plan.done, plan.stop));
  }

  lemma EnteredAtLast(t: map<string, Tree>, s: map<string, Tree>, r: Run, outcome: Outcome, k: string, sub: Run)
    requires r.below.Keys == Entered(t, s, r.done, Through) && k in s && k !in r.done && outcome != Done
    ensures Ended(t, s, r, outcome, k, sub).below.Keys == Entered(t, s, r.done, StopFor(outcome, k))
  {}

  lemma SameMap(a: map<string, Run>, b: map<string, Run>, keys: set<string>)
    requires a.Keys == keys && b.Keys == keys && forall k :: k in a ==> k in b && a[k] == b[k]
    ensures a == b
  {}

  lemma AllIsPlanned(t: map<string, Tree>, s: map<string, Tree>, r: Run, plan: Run)
    requires Building(t, s, r, plan) && s.Keys - r.done == {}
    ensures Fits(Dictionary(t), Dictionary(s), plan, r.done != {}, r)
  {
    assert forall k :: k in s.Keys ==> k !in s.Keys - r.done;
    assert Possible(Dictionary(t), Dictionary(s), r);
    if Possible(Dictionary(t), Dictionary(s), plan) {
      assert plan.done == r.done && plan.stop == Through;
      assert r.below == plan.below;
    }
  }

  // ---------- the loop ----------

  // The sub-dictionary d is merged into a copy of child.
  method MergeCopy(d: Dict, child: Dict, plan: Run) returns (ok: bool, copy: Dict, ghost sub: Run)
    requires d.Valid() && child.Valid()
    ensures copy.Valid() && fresh(copy.Repr - child.Repr - d.Repr) && Fits(child.tree, d.tree, plan, ok, sub)
    ensures copy.tree == Got(child.tree, d.tree, sub)
    decreases d.Repr, 5
  {
    copy := new Dict.WithDictionary(child);
    ok, sub := MergeOnCopies(d, copy, plan);
  }

  // One key: a dictionary that meets a dictionary is merged into a copy, anything else is put in
  // as it is.
  method MergeKey(source: Dict, target: Dict, k: string, plan: Run) returns (outcome: Outcome, ghost sub: Run)
    requires source.Valid() && target.Valid() && target !in source.Repr && k in source.entries
    modifies target
    ensures target.Valid() && fresh(target.Repr - old(target.Repr) - source.Repr)
    ensures StepFits(old(target.tree).children, source.tree.children, k, plan, outcome, sub)
    ensures target.tree == if outcome != Done then old(target.tree) else
      Dictionary(WithKey(old(target.tree).children, source.tree.children, k, sub))
    decreases source.Repr, 0
  {
    var v := source.entries[k];
    sub := ANY;
    if k in target.entries && target.entries[k].Sub? && v.Sub? {
      if plan.stop == NoCopy(k) {
        return CopyFails, sub;
      }
      var ok, copy;
      ok, copy, sub := MergeCopy(v.dict, target.entries[k].dict, PlanBelow(plan, k));
      if !ok {
        return Refuses, sub;
      }
      v := Sub(copy);
    }
    var isSet := target.SetObject(k, v, plan.stop != NotSet(k));
    outcome := if isSet then Done else SetFails;
  }

  // A merge of s into t has got as far as r.
  ghost predicate Halfway(source: Dict, target: Dict, t: map<string, Tree>, s: map<string, Tree>, r: Run, plan: Run)
    reads source, source.Repr, target, target.Repr
  {
    && source.Valid() && target.Valid() && target !in source.Repr && source.tree == Dictionary(s)
    && target.tree == Dictionary(GotOn(t, s, r)) && Building(t, s, r, plan)
  }

  lemma StepFromStart(t: map<string, Tree>, s: map<string, Tree>, r: Run, k: string, plan: Run,
      outcome: Outcome, sub: Run)
    requires k !in r.done && k in s && StepFits(GotOn(t, s, r), s, k, plan, outcome, sub)
    ensures StepFits(t, s, k, plan, outcome, sub)
  {
    SameBoth(t, s, r, k);
  }

  // The keys come in any order; the plan says which.
  method PickKey(keys: set<string>, plan: Run,
      ghost t: map<string, Tree>, ghost s: map<string, Tree>, ghost r: Run) returns (k: string)
    requires keys != {} && keys == s.Keys - r.done && Building(t, s, r, plan)
    ensures k in keys && (Possible(Dictionary(t), Dictionary(s), plan) ==> IsNext(s, r, plan, k))
  {
    var planned := plan.done * keys;
    if planned != {} {
      k :| k in planned;
    } else {
      NonePlanned(t, s, r, plan, keys);
      if !plan.stop.Through? && plan.stop.key in keys {
        k := plan.stop.key;
      } else {
        k :| k in keys;
      }
    }
  }

  lemma NonePlanned(t: map<string, Tree>, s: map<string, Tree>, r: Run, plan: Run, keys: set<string>)
    requires plan.done * keys == {} && keys == s.Keys - r.done && Building(t, s, r, plan)
    ensures Possible(Dictionary(t), Dictionary(s), plan) ==>
      r.done == plan.done && (plan.stop.Through? || plan.stop.key in keys)
  {
    if Possible(Dictionary(t), Dictionary(s), plan) {
      assert forall x :: x in plan.done ==> x in r.done || x in plan.done * keys;
      assert r.done == plan.done;
    }
  }

  // One more key, and where that leads.
  method MergeNext(source: Dict, target: Dict, k: string, plan: Run,
      ghost t: map<string, Tree>, ghost s: map<string, Tree>, ghost r: Run)
    returns (outcome: Outcome, ghost next: Run)
    requires Halfway(source, target, t, s, r, plan) && k in s && k !in r.done
    requires Possible(Dictionary(t), Dictionary(s), plan) ==> IsNext(s, r, plan, k)
    modifies target
    ensures target.Valid() && fresh(target.Repr - old(target.Repr) - source.Repr)
    ensures outcome == Done ==> Halfway(source, target, t, s, next, plan) && next.done == r.done + {k}
    ensures outcome != Done ==>
      Fits(Dictionary(t), Dictionary(s), plan, r.done != {} && outcome == CopyFails, next)
    ensures target.tree == Dictionary(GotOn(t, s, next))
    decreases source.Repr, 1
  {
    ghost var sub;
    outcome, sub := MergeKey(source, target, k, plan);
    StepFromStart(t, s, r, k, plan, outcome, sub);
    if outcome == Done {
      next := Extended(t, s, r, k, sub);
      GotOneMore(t, s, r, k, sub);
      StepIsDone(t, s, r, plan, k, sub);
    } else {
      next := Ended(t, s, r, outcome, k, sub);
      GotEnded(t, s, r, outcome, k, sub);
      StepIsLast(t, s, r, plan, k, outcome, sub);
    }
  }

  // One turn of the loop, with the reply so far. A copy that fails leaves the reply as it is.
  method Turn(source: Dict, target: Dict, plan: Run, keys: set<string>, was: bool,
      ghost t: map<string, Tree>, ghost s: map<string, Tree>, ghost r: Run)
    returns (goOn: bool, ok: bool, rest: set<string>, ghost next: Run)
    requires Halfway(source, target, t, s, r, plan) && keys == s.Keys - r.done && keys != {} && was == (r.done != {})
    modifies target
    ensures target.Valid() && fresh(target.Repr - old(target.Repr) - source.Repr)
    ensures goOn ==>
      Halfway(source, target, t, s, next, plan) && rest == s.Keys - next.done && ok == (next.done != {})
    ensures !goOn ==> Fits(Dictionary(t), Dictionary(s), plan, ok, next)
    ensures target.tree == Dictionary(GotOn(t, s, next)) && rest < keys
    decreases source.Repr, 2
  {
    var k := PickKey(keys, plan, t, s, r);
    var outcome;
    outcome, next := MergeNext(source, target, k, plan, t, s, r);
    rest, ok := keys - {k}, was;
    goOn := outcome == Done;
    if outcome != CopyFails {
      ok := outcome == Done;
    }
  }

  // The loop over the keys of the source.
  method MergeKeys(source: Dict, target: Dict, plan: Run, ghost t: map<string, Tree>, ghost s: map<string, Tree>)
    returns (ok: bool, ghost r: Run)
    requires Halfway(source, target, t, s, ANY, plan)
    modifies target
    ensures target.Valid() && fresh(target.Repr - old(target.Repr) - source.Repr)
    ensures Fits(Dictionary(t), Dictionary(s), plan, ok, r) && target.tree == Dictionary(GotOn(t, s, r))
    decreases source.Repr, 3
  {
    ghost var before, others := target.Repr, source.Repr;
    var keys, goOn := source.entries.Keys, true;
    ok, r := false, ANY;
    while goOn && keys != {}
      invariant goOn ==> Halfway(source, target, t, s, r, plan) && keys == s.Keys - r.done && ok == (r.done != {})
      invariant !goOn ==> Fits(Dictionary(t), Dictionary(s), plan, ok, r)
      invariant target.Valid() && fresh(target.Repr - before - others) && target.tree == Dictionary(GotOn(t, s, r))
      decreases keys
    {
      goOn, ok, keys, r := Turn(source, target, plan, keys, ok, t, s, r);
    }
    if goOn {
      AllIsPlanned(t, s, r, plan);
    }
  }

  lemma NothingDone(t: map<string, Tree>, s: map<string, Tree>)
    ensures GotOn(t, s, ANY) == t
  {}

  lemma RunMeans(t: Tree, s: Tree, plan: Run, ok: bool, r: Run)
    requires Fits(t, s, plan, ok, r)
    ensures CopiesLast(r) ==> (ok <==> SetsLast(r) && Mergeable(t, s))
    ensures ok ==> (Got(t, s, r) == DeepMerge(t, s) <==> NothingMissing(t, s, r))
    ensures ok && (CopiesLast(r) || !Risky(t, s)) ==> Got(t, s, r) == DeepMerge(t, s)
  {
    if CopiesLast(r) {
      TrueWithCopies(t, s, r);
    }
    MergedExactly(t, s, r);
    TrustedExactly(t, s);
  }

  /** MergeDictionaryIntoDictionary of AppleUSBMergeNub.c. Whatever fails, in whatever order the keys
      come, the reply and the target are those of a possible run, and every possible run can be had. If
      no copy fails, the reply is true exactly when every key can be set and no empty dictionary meets
      a dictionary, and the target is then the deep merge. If a copy fails, it is true exactly when
      some key was done before. No other dictionary is ever changed. */
  method MergeOnCopies(source: Dict, target: Dict, plan: Run) returns (ok: bool, ghost r: Run)
    requires source.Valid() && target.Valid() && target !in source.Repr
    modifies target
    ensures target.Valid() && fresh(target.Repr - old(target.Repr) - source.Repr)
    ensures Fits(old(target.tree), source.tree, plan, ok, r) && target.tree == Got(old(target.tree), source.tree, r)
    ensures CopiesLast(r) ==> (ok <==> SetsLast(r) && Mergeable(old(target.tree), source.tree))
    ensures r.stop.NoCopy? ==> (ok <==> r.done != {})
    ensures ok ==> (target.tree == DeepMerge(old(target.tree), source.tree) <==>
                    NothingMissing(old(target.tree), source.tree, r))
    ensures ok && (CopiesLast(r) || !Risky(old(target.tree), source.tree)) ==>
      target.tree == DeepMerge(old(target.tree), source.tree)
    decreases source.Repr, 4
  {
    ghost var before := target.tree;
    ghost var t, s := before.children, source.tree.children;
    NothingDone(t, s);
    assert Building(t, s, ANY, plan);
    ok, r := MergeKeys(source, target, plan, t, s);
    RunMeans(before, source.tree, plan, ok, r);
  }

  // ---------- a run that is cut short ----------

  method OneEntry(k: string, v: int) returns (d: Dict)
    ensures fresh(d.Repr) && d.Valid() && d.tree == Dictionary(map[k := Plain(v)])
  {
    d := new Dict();
    var _ := d.SetObject(k, Leaf(v), true);
  }

  method WithEntry(k: string, v: int) returns (d: Dict)
    ensures fresh(d.Repr) && d.Valid() && d.tree == Dictionary(map["b" := Dictionary(map[k := Plain(v)])])
  {
    var below := OneEntry(k, v);
    d := new Dict();
    var _ := d.SetObject("b", Sub(below), true);
  }

  const OLD_TARGET := Dictionary(map["b" := Dictionary(map["d" := Plain(3)])])
  const NEW_SOURCE := Dictionary(map["b" := Dictionary(map["c" := Plain(2)]), "a" := Plain(1)])
  const CUT := Dictionary(map["b" := Dictionary(map["d" := Plain(3)]), "a" := Plain(1)])

  // "a" comes first, and the copy for "b" fails.
  const CUT_PLAN := Run({"a"}, NoCopy("b"), map[])

  lemma PlanIsPossible()
    ensures Possible(OLD_TARGET, NEW_SOURCE, CUT_PLAN) && Replied(CUT_PLAN)
    ensures Got(OLD_TARGET, NEW_SOURCE, CUT_PLAN) == CUT
  {
    assert NEW_SOURCE.children.Keys == {"a", "b"};
    assert GotOn(OLD_TARGET.children, NEW_SOURCE.children, CUT_PLAN) == CUT.children;
  }

  lemma SomethingIsMissing()
    ensures CUT != DeepMerge(OLD_TARGET, NEW_SOURCE)
  {
    var t, s := OLD_TARGET.children["b"], NEW_SOURCE.children["b"];
    assert "c" in DeepMerge(t, s).children;
    assert DeepMerge(OLD_TARGET, NEW_SOURCE).children["b"] == DeepMerge(t, s);
  }

  method NewSource() returns (source: Dict)
    ensures fresh(source.Repr) && source.Valid() && source.tree == NEW_SOURCE
  {
    source := WithEntry("c", 2);
    var _ := source.SetObject("a", Leaf(1), true);
  }

  /** It does go wrong: the reply is true, and what the source has under "b" is missing. */
  method CutShortRun() returns (ok: bool, source: Dict, target: Dict)
    ensures ok && source.tree == NEW_SOURCE && target.tree == CUT && CUT != DeepMerge(OLD_TARGET, NEW_SOURCE)
  {
    source := NewSource();
    target := WithEntry("d", 3);
    assert target.tree == OLD_TARGET;
    PlanIsPossible();
    SomethingIsMissing();
    ghost var r;
    ok, r := MergeOnCopies(source, target, CUT_PLAN);
  }
}

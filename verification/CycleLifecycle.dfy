/**
  Readiness of one model product and the lifecycle of its cycle: what the classifier reports,
  and when its reports form a legal run of lifecycle transitions.
*/
module CycleLifecycle {
  import opened Text
  import opened Wrappers

  datatype State =
    | Discovered
    | IndexAvailable
    | Downloading
    | Missing
    | Partial
    | MinimumUsable
    | Complete
    | Quarantined
    | Superseded
    | Expired

  datatype Scope = Scope(grid: string, leadHours: int, member: Option<string>)

  datatype Arrival = Arrival(name: string, scope: Scope)

  datatype Publication = Publication(
    scope: Scope,
    state: State,
    available: set<string>,
    missingMinimum: set<string>,
    missingComplete: set<string>,
    completeness: real)

  datatype CycleError =
    | NoMinimumFields
    | NoCompleteFields
    | MinimumNotInComplete
    | MismatchedScope
    | IllegalTransition(current: State, target: State)

  predicate Usable(s: State) {
    s == MinimumUsable || s == Complete
  }

  // ---------------------------------------------------------------- readiness

  function Names(arrivals: seq<Arrival>): set<string> {
    set a | a in arrivals :: a.name
  }

  function EvaluateCycle(arrivals: seq<Arrival>, scope: Scope, minimum: set<string>, complete: set<string>):
      Result<Publication, CycleError>
  {
    if minimum == {} then Err(NoMinimumFields)
    else if complete == {} then Err(NoCompleteFields)
    else if !(minimum <= complete) then Err(MinimumNotInComplete)
    else if exists a | a in arrivals :: a.scope != scope then Err(MismatchedScope)
    else
      var available := Names(arrivals);
      var recognized := available * complete;
      var missingMinimum := minimum - recognized;
      var missingComplete := complete - recognized;
      var state :=
        if recognized == {} then Missing
        else if missingComplete == {} then Complete
        else if missingMinimum == {} then MinimumUsable
        else Partial;
      Ok(Publication(scope, state, available, missingMinimum, missingComplete,
                     |recognized| as real / |complete| as real))
  }

  /** A product that can be evaluated: some minimum fields, all of them among the complete ones. */
  predicate Inventory(minimum: set<string>, complete: set<string>) {
    minimum != {} && minimum <= complete
  }

  predicate InScope(arrivals: seq<Arrival>, scope: Scope) {
    forall a | a in arrivals :: a.scope == scope
  }

  function StateOf(arrivals: seq<Arrival>, scope: Scope, minimum: set<string>, complete: set<string>): State
    requires Inventory(minimum, complete) && InScope(arrivals, scope)
  {
    EvaluateCycle(arrivals, scope, minimum, complete).value.state
  }

  /** Neither the order nor the repetition of arrivals matters, for errors as for results. */
  lemma ArrivalsAreASet(
      a: seq<Arrival>, b: seq<Arrival>, scope: Scope, minimum: set<string>, complete: set<string>)
    requires forall x :: x in a <==> x in b
    ensures EvaluateCycle(a, scope, minimum, complete) == EvaluateCycle(b, scope, minimum, complete)
  {
    assert Names(a) == Names(b);
  }

  /** What each reported state says about the fields that arrived. */
  lemma StateMeans(arrivals: seq<Arrival>, scope: Scope, minimum: set<string>, complete: set<string>)
    requires Inventory(minimum, complete) && InScope(arrivals, scope)
    ensures var s := StateOf(arrivals, scope, minimum, complete);
      && (s == Missing <==> Names(arrivals) * complete == {})
      && (Usable(s) <==> minimum <= Names(arrivals))
      && (s == Complete <==> complete <= Names(arrivals))
      && s in {Missing, Partial, MinimumUsable, Complete}
  {
    var recognized := Names(arrivals) * complete;
    if minimum - recognized == {} {
      forall m | m in minimum
        ensures m in Names(arrivals)
      {
        assert m !in minimum - recognized;
      }
    }
    if complete - recognized == {} {
      forall m | m in complete
        ensures m in Names(arrivals)
      {
        assert m !in complete - recognized;
      }
    }
    if minimum <= Names(arrivals) {
      var m :| m in minimum;
      assert m in recognized;
    }
  }

  /** Evaluation succeeds exactly for an inventory whose arrivals are all in scope. */
  lemma EvaluationSucceedsIff(arrivals: seq<Arrival>, scope: Scope, minimum: set<string>, complete: set<string>)
    ensures EvaluateCycle(arrivals, scope, minimum, complete).Ok? <==>
      Inventory(minimum, complete) && InScope(arrivals, scope)
  {
    if Inventory(minimum, complete) {
      var m :| m in minimum;
      assert m in complete;
    }
  }

  /** A failure names the first thing that is wrong. */
  lemma EvaluationFailsFor(arrivals: seq<Arrival>, scope: Scope, minimum: set<string>, complete: set<string>)
    ensures var r := EvaluateCycle(arrivals, scope, minimum, complete);
      var inventory := minimum != {} && complete != {} && forall f | f in minimum :: f in complete;
      && (r == Err(NoMinimumFields) <==> minimum == {})
      && (r == Err(NoCompleteFields) <==> minimum != {} && complete == {})
      && (r == Err(MinimumNotInComplete) <==> minimum != {} && complete != {} && !inventory)
      && (r == Err(MismatchedScope) <==> inventory && exists k | 0 <= k < |arrivals| :: arrivals[k].scope != scope)
  {
    if k :| 0 <= k < |arrivals| && arrivals[k].scope != scope {
      assert arrivals[k] in arrivals;
    }
  }

  /** The two lists of missing fields are what did not arrive; each is empty when its state says so. */
  lemma MissingIsWhatDidNotArrive(
      arrivals: seq<Arrival>, scope: Scope, minimum: set<string>, complete: set<string>, p: Publication)
    requires EvaluateCycle(arrivals, scope, minimum, complete) == Ok(p)
    ensures p.scope == scope
    ensures forall f :: f in p.available <==> exists a :: a in arrivals && a.name == f
    ensures forall f :: f in p.missingMinimum <==> f in minimum && forall a | a in arrivals :: a.name != f
    ensures forall f :: f in p.missingComplete <==> f in complete && forall a | a in arrivals :: a.name != f
    ensures p.missingMinimum == {} <==> Usable(p.state)
    ensures p.missingComplete == {} <==> p.state == Complete
  {
    EvaluationSucceedsIff(arrivals, scope, minimum, complete);
    StateMeans(arrivals, scope, minimum, complete);
    forall f
      ensures f in p.available <==> exists a :: a in arrivals && a.name == f
    {
    }
    assert p.missingMinimum == minimum - Names(arrivals);
    assert p.missingComplete == complete - Names(arrivals);
  }

  function Rank(s: State): nat {
    match s
    case Partial => 1
    case MinimumUsable => 2
    case Complete => 3
    case _ => 0
  }

  /** More arrivals never lower the reported readiness. */
  lemma ReadinessGrows(
      fewer: seq<Arrival>, more: seq<Arrival>, scope: Scope, minimum: set<string>, complete: set<string>)
    requires Inventory(minimum, complete) && InScope(more, scope) && forall a | a in fewer :: a in more
    ensures InScope(fewer, scope)
    ensures Rank(StateOf(fewer, scope, minimum, complete)) <= Rank(StateOf(more, scope, minimum, complete))
  {
    StateMeans(fewer, scope, minimum, complete);
    StateMeans(more, scope, minimum, complete);
    assert Names(fewer) <= Names(more);
  }

  /** The completeness ratio is 0 exactly for a missing product and 1 exactly for a complete one. */
  lemma RatioMatchesState(
      arrivals: seq<Arrival>, scope: Scope, minimum: set<string>, complete: set<string>, p: Publication)
    requires EvaluateCycle(arrivals, scope, minimum, complete) == Ok(p)
    ensures 0.0 <= p.completeness <= 1.0
    ensures p.completeness == 0.0 <==> p.state == Missing
    ensures p.completeness == 1.0 <==> p.state == Complete
  {
    var recognized := p.available * complete;
    assert complete == recognized + (complete - recognized);
    assert |complete| == |recognized| + |complete - recognized|;
    Fraction(|recognized|, |complete|);
    assert recognized == {} <==> |recognized| == 0;
    assert complete - recognized == {} <==> |complete - recognized| == 0;
    assert recognized == {} ==> complete - recognized == complete;
  }

  /** The ratio in numbers: times the complete fields it is those that arrived. */
  lemma RatioCounts(
      arrivals: seq<Arrival>, scope: Scope, minimum: set<string>, complete: set<string>, p: Publication)
    requires EvaluateCycle(arrivals, scope, minimum, complete) == Ok(p)
    ensures var arrived := set f | f in complete && exists a :: a in arrivals && a.name == f;
      p.completeness * |complete| as real == |arrived| as real
  {
    var recognized := p.available * complete;
    assert recognized == set f | f in complete && exists a :: a in arrivals && a.name == f;
    SubsetSize(recognized, complete);
    Fraction(|recognized|, |complete|);
  }

  lemma Fraction(part: nat, whole: nat)
    requires part <= whole && whole > 0
    ensures 0.0 <= part as real / whole as real <= 1.0
    ensures part as real / whole as real == 0.0 <==> part == 0
    ensures part as real / whole as real == 1.0 <==> part == whole
    ensures part as real / whole as real * whole as real == part as real
  {
    var q := part as real / whole as real;
    assert q * whole as real == part as real;
  }

  // ---------------------------------------------------------------- transitions

  function Allowed(s: State): set<State> {
    match s
    case Discovered => {IndexAvailable, Missing, Quarantined}
    case IndexAvailable => {Downloading, Partial, Quarantined}
    case Downloading => {Missing, Partial, MinimumUsable, Complete, Quarantined}
    case Missing => {Partial, Quarantined, Expired}
    case Partial => {MinimumUsable, Complete, Quarantined, Expired}
    case MinimumUsable => {Complete, Quarantined, Superseded, Expired}
    case Complete => {Quarantined, Superseded, Expired}
    case Quarantined => {Expired}
    case Superseded => {Expired}
    case Expired => {}
  }

  function TransitionCycle(current: State, target: State): Result<State, CycleError> {
    if current == target then Ok(target)
    else if target !in Allowed(current) then Err(IllegalTransition(current, target))
    else Ok(target)
  }

  /** The table by its columns: what may come right before each state. */
  lemma MayPrecede(s: State, t: State)
    ensures t in Allowed(s) <==>
      match t {
        case Discovered => false
        case IndexAvailable => s == Discovered
        case Downloading => s == IndexAvailable
        case Missing => s in {Discovered, Downloading}
        case Partial => s in {IndexAvailable, Downloading, Missing}
        case MinimumUsable => s in {Downloading, Partial}
        case Complete => s in {Downloading, Partial, MinimumUsable}
        case Quarantined => s !in {Quarantined, Superseded, Expired}
        case Superseded => Usable(s)
        case Expired => s !in {Discovered, IndexAvailable, Downloading, Expired}
      }
  {
    match s
    case Discovered =>
    case IndexAvailable =>
    case Downloading =>
    case Missing =>
    case Partial =>
    case MinimumUsable =>
    case Complete =>
    case Quarantined =>
    case Superseded =>
    case Expired =>
  }

  /** Whatever is reported of a product after its download is a legal next state. */
  lemma AnyReportFollowsDownload(
      arrivals: seq<Arrival>, scope: Scope, minimum: set<string>, complete: set<string>)
    requires Inventory(minimum, complete) && InScope(arrivals, scope)
    ensures TransitionCycle(Downloading, StateOf(arrivals, scope, minimum, complete)).Ok?
  {
    StateMeans(arrivals, scope, minimum, complete);
  }

  /** A lifecycle run: from discovery on, every state is a legal transition from the one before. */
  ghost predicate LegalRun(states: seq<State>) {
    && states != []
    && states[0] == Discovered
    && forall i | 0 <= i < |states| - 1 :: TransitionCycle(states[i], states[i + 1]).Ok?
  }

  /** The most changes that can still follow a state. */
  function ChangesLeft(s: State): nat {
    match s
    case Discovered => 8
    case IndexAvailable => 7
    case Downloading => 6
    case Missing => 5
    case Partial => 4
    case MinimumUsable => 3
    case Complete => 2
    case Quarantined => 1
    case Superseded => 1
    case Expired => 0
  }

  function Changes(states: seq<State>): nat {
    if |states| < 2 then 0
    else Changes(states[..|states| - 1]) + if states[|states| - 2] == states[|states| - 1] then 0 else 1
  }

  lemma {:induction false} ChangesUseUp(states: seq<State>)
    requires LegalRun(states)
    ensures Changes(states) + ChangesLeft(states[|states| - 1]) <= 8
  {
    if |states| > 1 {
      var before := states[..|states| - 1];
      ChangesUseUp(before);
      var i := |states| - 2;
      assert TransitionCycle(states[i], states[i + 1]).Ok?;
      assert before[|before| - 1] == states[i];
    }
  }

  /** No run makes more than eight changes. */
  lemma AtMostEightChanges(states: seq<State>)
    requires LegalRun(states)
    ensures Changes(states) <= 8
  {
    ChangesUseUp(states);
  }

  /** And eight can be made. */
  lemma EightChangesHappen() returns (states: seq<State>)
    ensures LegalRun(states) && Changes(states) == 8
  {
    states := [Discovered];
    var path := [IndexAvailable, Downloading, Missing, Partial, MinimumUsable, Complete, Superseded, Expired];
    for k := 0 to 8
      invariant LegalRun(states) && Changes(states) == k
      invariant states[|states| - 1] == if k == 0 then Discovered else path[k - 1]
    {
      ExtendRun(states, path[k]);
      states := states + [path[k]];
    }
  }

  lemma ExtendRun(states: seq<State>, s: State)
    requires LegalRun(states) && TransitionCycle(states[|states| - 1], s).Ok?
    ensures LegalRun(states + [s])
    ensures Changes(states + [s]) == Changes(states) + if states[|states| - 1] == s then 0 else 1
  {
    var longer := states + [s];
    assert longer[..|longer| - 1] == states;
    forall i | 0 <= i < |longer| - 1
      ensures TransitionCycle(longer[i], longer[i + 1]).Ok?
    {
    }
  }

  lemma {:induction false} NeverRegains(states: seq<State>, i: nat, k: nat)
    requires LegalRun(states) && i <= k < |states|
    ensures ChangesLeft(states[k]) <= ChangesLeft(states[i])
    ensures ChangesLeft(states[k]) == ChangesLeft(states[i]) ==> states[k] == states[i]
    decreases k
  {
    if i < k {
      NeverRegains(states, i, k - 1);
      assert TransitionCycle(states[k - 1], states[(k - 1) + 1]).Ok?;
    }
  }

  /** A state once left never comes back. */
  lemma LeftForGood(states: seq<State>, i: nat, j: nat, k: nat)
    requires LegalRun(states) && i <= j <= k < |states| && states[i] == states[k]
    ensures states[j] == states[i]
  {
    NeverRegains(states, i, j);
    NeverRegains(states, j, k);
  }

  /** A superseded cycle was usable earlier in its run. */
  lemma {:induction false} SupersededWasUsable(states: seq<State>, k: nat) returns (j: nat)
    requires LegalRun(states) && k < |states| && states[k] == Superseded
    ensures j < k && Usable(states[j])
    decreases k
  {
    assert k > 0;
    assert TransitionCycle(states[k - 1], states[(k - 1) + 1]).Ok?;
    if states[k - 1] == Superseded {
      j := SupersededWasUsable(states, k - 1);
    } else {
      j := k - 1;
    }
  }

  /** After quarantine there is only quarantine and expiry. */
  lemma {:induction false} QuarantineIsFinal(states: seq<State>, i: nat, k: nat)
    requires LegalRun(states) && i <= k < |states| && states[i] == Quarantined
    ensures states[k] == Quarantined || states[k] == Expired
    ensures !Usable(states[k])
    decreases k
  {
    if i < k {
      QuarantineIsFinal(states, i, k - 1);
      assert TransitionCycle(states[k - 1], states[(k - 1) + 1]).Ok?;
    }
  }

  // ---------------------------------------------------------------- readiness as a lifecycle run

  lemma Prefixes(arrivals: seq<Arrival>)
    requires arrivals != []
    ensures arrivals[..|arrivals|] == arrivals
    ensures forall i | 0 <= i < |arrivals| :: arrivals[..|arrivals| - 1][..i] == arrivals[..i]
  {
  }

  /** The states reported after each single arrival, from before the first one on. */
  function Reports(arrivals: seq<Arrival>, scope: Scope, minimum: set<string>, complete: set<string>): (r: seq<State>)
    requires Inventory(minimum, complete) && InScope(arrivals, scope)
    ensures |r| == |arrivals| + 1
    ensures forall i | 0 <= i <= |arrivals| ::
      InScope(arrivals[..i], scope) && r[i] == StateOf(arrivals[..i], scope, minimum, complete)
  {
    if arrivals == [] then [StateOf([], scope, minimum, complete)]
    else
      var earlier := arrivals[..|arrivals| - 1];
      var r := Reports(earlier, scope, minimum, complete) + [StateOf(arrivals, scope, minimum, complete)];
      Prefixes(arrivals);
      r
  }

  /** Nothing jumps over the partial state: two fields are needed, or the minimum never arrives. */
  predicate NoJump(arrivals: seq<Arrival>, minimum: set<string>) {
    |minimum| >= 2 || !(minimum <= Names(arrivals))
  }

  /** One more arrival is then a legal step. */
  lemma OneArrivalIsLegal(
      arrivals: seq<Arrival>, a: Arrival, scope: Scope, minimum: set<string>, complete: set<string>)
    requires Inventory(minimum, complete) && InScope(arrivals, scope) && a.scope == scope
    requires NoJump(arrivals + [a], minimum)
    ensures InScope(arrivals + [a], scope)
    ensures TransitionCycle(StateOf(arrivals, scope, minimum, complete),
                            StateOf(arrivals + [a], scope, minimum, complete)).Ok?
  {
    var more := arrivals + [a];
    StateMeans(arrivals, scope, minimum, complete);
    StateMeans(more, scope, minimum, complete);
    ReadinessGrows(arrivals, more, scope, minimum, complete);
    if minimum <= Names(more) {
      SomethingCameBefore(arrivals, a, minimum, complete);
    }
  }

  /** Of two minimum fields, one had arrived before the last. */
  lemma SomethingCameBefore(arrivals: seq<Arrival>, a: Arrival, minimum: set<string>, complete: set<string>)
    requires minimum <= complete && |minimum| >= 2 && minimum <= Names(arrivals + [a])
    ensures Names(arrivals) * complete != {}
  {
    AnotherOf(minimum, a.name);
    var m :| m in minimum && m != a.name;
    assert m in Names(arrivals + [a]);
    assert m in Names(arrivals) * complete;
  }

  lemma AnotherOf(s: set<string>, x: string)
    requires |s| >= 2
    ensures exists m :: m in s && m != x
  {
    if forall m | m in s :: m == x {
      assert s <= {x};
      SubsetSize(s, {x});
    }
  }

  lemma {:induction false} SubsetSize(a: set<string>, b: set<string>)
    requires a <= b
    ensures |a| <= |b|
  {
    assert b == a + (b - a);
  }

  lemma {:induction false} ReportsAreLegal(
      arrivals: seq<Arrival>, scope: Scope, minimum: set<string>, complete: set<string>)
    requires Inventory(minimum, complete) && InScope(arrivals, scope) && NoJump(arrivals, minimum)
    ensures LegalRun([Discovered] + Reports(arrivals, scope, minimum, complete))
  {
    if arrivals == [] {
      StateMeans(arrivals, scope, minimum, complete);
      ExtendRun([Discovered], StateOf(arrivals, scope, minimum, complete));
    } else {
      var earlier := arrivals[..|arrivals| - 1];
      assert Names(earlier) <= Names(arrivals);
      ReportsAreLegal(earlier, scope, minimum, complete);
      var reports, latest := LatestReport(arrivals, scope, minimum, complete);
      ExtendRun([Discovered] + reports, latest);
      assert [Discovered] + (reports + [latest]) == [Discovered] + reports + [latest];
    }
  }

  /** The last report follows the ones before it by a legal step. */
  lemma LatestReport(arrivals: seq<Arrival>, scope: Scope, minimum: set<string>, complete: set<string>)
    returns (reports: seq<State>, latest: State)
    requires Inventory(minimum, complete) && InScope(arrivals, scope) && NoJump(arrivals, minimum) && arrivals != []
    ensures InScope(arrivals[..|arrivals| - 1], scope)
    ensures reports == Reports(arrivals[..|arrivals| - 1], scope, minimum, complete)
    ensures Reports(arrivals, scope, minimum, complete) == reports + [latest]
    ensures TransitionCycle(reports[|reports| - 1], latest).Ok?
  {
    var earlier, a := arrivals[..|arrivals| - 1], arrivals[|arrivals| - 1];
    assert arrivals == earlier + [a] && a in arrivals;
    reports := Reports(earlier, scope, minimum, complete);
    latest := StateOf(arrivals, scope, minimum, complete);
    OneArrivalIsLegal(earlier, a, scope, minimum, complete);
    assert earlier[..|earlier|] == earlier;
  }

  /** With a single minimum field, its arrival first jumps over the partial state. */
  lemma SingleFieldJumps(scope: Scope, minimum: set<string>, complete: set<string>, m: string)
    requires Inventory(minimum, complete) && minimum == {m}
    ensures InScope([Arrival(m, scope)], scope)
    ensures !LegalRun([Discovered] + Reports([Arrival(m, scope)], scope, minimum, complete))
  {
    var arrivals := [Arrival(m, scope)];
    var states := [Discovered] + Reports(arrivals, scope, minimum, complete);
    assert arrivals[..0] == [] && arrivals[..1] == arrivals;
    StateMeans([], scope, minimum, complete);
    StateMeans(arrivals, scope, minimum, complete);
    assert Names([]) == {};
    assert m in Names(arrivals);
    assert states[1] == Missing && Usable(states[2]);
    assert !TransitionCycle(states[1], states[1 + 1]).Ok?;
  }

  /** Only space: what no arrival can be called. */
  predicate Blank(name: string) {
    forall c | c in name :: IsSpace(c)
  }

  /** The arrivals that can be constructed. */
  predicate Named(arrivals: seq<Arrival>) {
    forall a | a in arrivals :: !Blank(a.name)
  }

  /**
    Re-evaluating after every single arrival, in whatever order fields arrive, is a legal
    lifecycle run exactly when the product does not have a single minimum field that can arrive.
  */
  lemma ReadinessFitsLifecycleIff(scope: Scope, minimum: set<string>, complete: set<string>)
    requires Inventory(minimum, complete)
    ensures (forall arrivals | InScope(arrivals, scope) && Named(arrivals) ::
               LegalRun([Discovered] + Reports(arrivals, scope, minimum, complete)))
      <==> |minimum| >= 2 || exists m :: m in minimum && Blank(m)
  {
    if |minimum| >= 2 || exists m :: m in minimum && Blank(m) {
      forall arrivals | InScope(arrivals, scope) && Named(arrivals)
        ensures LegalRun([Discovered] + Reports(arrivals, scope, minimum, complete))
      {
        BlankNeverArrives(arrivals, minimum);
        ReportsAreLegal(arrivals, scope, minimum, complete);
      }
    } else {
      var m :| m in minimum;
      assert |minimum - {m}| == |minimum| - 1 == 0;
      assert minimum == {m};
      SingleFieldJumps(scope, minimum, complete, m);
    }
  }

  lemma BlankNeverArrives(arrivals: seq<Arrival>, minimum: set<string>)
    requires Named(arrivals) && (|minimum| >= 2 || exists m :: m in minimum && Blank(m))
    ensures NoJump(arrivals, minimum)
  {
    if m :| m in minimum && Blank(m) {
      assert m !in Names(arrivals);
    }
  }
}

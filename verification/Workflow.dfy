/** Workflow validation (src/workflow.rs): an uploaded state machine is accepted only if
    no ticket can be stranded in it. */
module Workflow {
  import opened Prelude
  import opened Text

  const CATEGORIES: seq<string> := ["todo", "in_progress", "blocked", "review", "done", "cancelled"]
  const GUARDS: seq<string> := ["no_open_children", "no_open_blockers"]
  const HAS_LINK := "has_link:"

  datatype WorkflowState = WorkflowState(id: string, category: string, claimable: bool, terminal: bool)
  datatype Transition = Transition(from: string, to: string, requirements: seq<string>)
  datatype Workflow = Workflow(name: string, initial: string, states: seq<WorkflowState>, transitions: seq<Transition>)

  // ---- Requirements -----------------------------------------------------------------

  datatype Requirement = Claim | Scope(scope: string) | Guard(guard: string)

  datatype BadRequirement = EmptyScope | NoLinkKey | SpacedLinkKey | UnknownGuard | UnknownRequirement

  function Strip(s: string, prefix: string): Option<string> {
    if prefix <= s then Some(s[|prefix|..]) else None
  }

  function Parse(raw: string): Result<Requirement, BadRequirement> {
    if raw == "claim" then Ok(Claim)
    else match Strip(raw, "scope:")
      case Some(scope) => if scope == "" then Err(EmptyScope) else Ok(Scope(scope))
      case None =>
        match Strip(raw, "guard:")
        case None => Err(UnknownRequirement)
        case Some(guard) =>
          if guard in GUARDS then Ok(Guard(guard))
          else match Strip(guard, HAS_LINK)
            case None => Err(UnknownGuard)
            case Some(key) =>
              if Trim(key) == "" then Err(NoLinkKey)
              else if key != Trim(key) then Err(SpacedLinkKey)
              else Ok(Guard(HAS_LINK + key))
  }

  /** The one spelling of a requirement. */
  function Render(r: Requirement): string {
    match r
    case Claim => "claim"
    case Scope(scope) => "scope:" + scope
    case Guard(guard) => "guard:" + guard
  }

  predicate IsLinkKey(key: string) {
    key != "" && Trim(key) == key
  }

  /** The requirements the server can enforce. */
  predicate Enforceable(r: Requirement) {
    match r
    case Claim => true
    case Scope(scope) => scope != ""
    case Guard(guard) => guard in GUARDS || (HAS_LINK <= guard && IsLinkKey(guard[|HAS_LINK|..]))
  }

  /** A requirement is accepted exactly when it is the spelling of one the server can
      enforce, and it is read as that one: no typo is taken for another gate. */
  lemma ParseIffRendered(raw: string, r: Requirement)
    ensures Parse(raw) == Ok(r) <==> Enforceable(r) && raw == Render(r)
  {
    assert Render(r) == "claim" ==> r.Claim? by {
      assert "claim"[0] == 'c' && "scope:"[0] == 's' && "guard:"[0] == 'g';
    }
    match r
    case Claim =>
    case Scope(scope) =>
      var s := Render(r);
      assert s[0] == 's' && s[|"scope:"|..] == scope;
    case Guard(guard) =>
      var s := Render(r);
      assert s[0] == 'g' && s[|"guard:"|..] == guard;
      assert HAS_LINK <= guard ==> guard == HAS_LINK + guard[|HAS_LINK|..];
  }

  /** Why a requirement is refused: each reason exactly for the spellings it names. */
  lemma RefusedSpelling(raw: string)
    ensures Parse(raw) == Err(EmptyScope) <==> raw == "scope:"
    ensures Parse(raw) == Err(UnknownRequirement) <==> raw != "claim" && !("scope:" <= raw) && !("guard:" <= raw)
    ensures Parse(raw) == Err(UnknownGuard)
       <==> "guard:" <= raw && raw[6..] !in ["no_open_children", "no_open_blockers"] && !("has_link:" <= raw[6..])
  {
    if "guard:" <= raw {
      LinkSpelling(raw);
    }
  }

  lemma RefusedKey(raw: string)
    ensures Parse(raw) == Err(NoLinkKey)
       <==> "guard:has_link:" <= raw && forall i :: 15 <= i < |raw| ==> IsWhite(raw[i])
    ensures Parse(raw) == Err(SpacedLinkKey)
       <==> && "guard:has_link:" <= raw && (exists i :: 15 <= i < |raw| && !IsWhite(raw[i]))
            && (IsWhite(raw[15]) || IsWhite(raw[|raw| - 1]))
  {
    if "guard:" <= raw {
      LinkSpelling(raw);
      if "guard:has_link:" <= raw {
        KeyErrors(raw, raw[15..]);
        assert forall i :: 15 <= i < |raw| ==> raw[i] == raw[15..][i - 15];
      }
    }
  }

  lemma KeyErrors(raw: string, key: string)
    requires "guard:has_link:" <= raw && key == raw[15..]
    ensures Parse(raw) == Err(NoLinkKey) <==> forall i :: 0 <= i < |key| ==> IsWhite(key[i])
    ensures Parse(raw) == Err(SpacedLinkKey)
       <==> (exists i :: 0 <= i < |key| && !IsWhite(key[i])) && (IsWhite(key[0]) || IsWhite(key[|key| - 1]))
  {
    LinkSpelling(raw);
    KeyTrimmed(key);
  }

  lemma LinkSpelling(raw: string)
    requires "guard:" <= raw
    ensures "has_link:" <= raw[6..] <==> "guard:has_link:" <= raw
    ensures "guard:has_link:" <= raw ==> raw[6..][9..] == raw[15..] && raw[6..] !in GUARDS
    ensures !("scope:" <= raw) && raw != "claim"
  {
    assert raw[0] == 'g';
    if "guard:has_link:" <= raw {
      assert raw[6..][..9] == raw[6..15] == "has_link:";
      assert raw[6] == 'h';
    }
    if "has_link:" <= raw[6..] {
      assert raw[..15] == raw[..6] + raw[6..][..9];
    }
  }

  /** A link key is left as it is by trimming exactly when no white space is at its ends. */
  lemma KeyTrimmed(key: string)
    ensures Trim(key) == "" <==> forall i :: 0 <= i < |key| ==> IsWhite(key[i])
    ensures Trim(key) != "" ==> (Trim(key) == key <==> !IsWhite(key[0]) && !IsWhite(key[|key| - 1]))
  {
    TrimEmpty(key);
  }

  // ---- The graph of a workflow ----------------------------------------------------------

  ghost function Ids(w: Workflow): set<string> {
    set s | s in w.states :: s.id
  }

  ghost function TerminalIds(w: Workflow): set<string> {
    set s | s in w.states && s.terminal :: s.id
  }

  ghost predicate Links(ts: seq<Transition>, a: string, b: string) {
    exists t :: t in ts && t.from == a && t.to == b
  }

  ghost predicate Edge(w: Workflow, a: string, b: string) {
    Links(w.transitions, a, b)
  }

  ghost predicate IsPath(w: Workflow, p: seq<string>) {
    p != [] && forall i :: 0 <= i < |p| - 1 ==> Edge(w, p[i], p[i + 1])
  }

  /** A path that ends the lifecycle. */
  ghost predicate Finishes(w: Workflow, p: seq<string>) {
    IsPath(w, p) && p[|p| - 1] in TerminalIds(w)
  }

  ghost predicate CanFinish(w: Workflow, id: string) {
    exists p :: Finishes(w, p) && p[0] == id
  }

  // ---- What an acceptable workflow is ---------------------------------------------------

  predicate StateFits(s: WorkflowState) {
    && s.category in ["todo", "in_progress", "blocked", "review", "done", "cancelled"]
    && !(s.terminal && s.claimable)
    && !(s.claimable && (s.category == "done" || s.category == "cancelled"))
  }

  ghost predicate TransitionFits(w: Workflow, t: Transition) {
    && t.from !in TerminalIds(w)
    && t.from in Ids(w)
    && t.to in Ids(w)
    && forall r :: r in t.requirements ==> Parse(r).Ok?
  }

  ghost predicate DistinctIds(states: seq<WorkflowState>) {
    forall i, j :: 0 <= i < j < |states| ==> states[i].id != states[j].id
  }

  ghost predicate BodyFits(w: Workflow, inUse: seq<string>) {
    && DistinctIds(w.states)
    && (forall s :: s in w.states ==> StateFits(s))
    && w.initial in Ids(w)
    && (forall t :: t in w.transitions ==> TransitionFits(w, t))
    && TerminalIds(w) != {}
    && (forall s :: s in w.states && !s.terminal ==> CanFinish(w, s.id))
    && (forall id :: id in inUse ==> id in Ids(w))
  }

  ghost predicate Acceptable(w: Workflow, inUse: seq<string>) {
    Trim(w.name) != "" && w.states != [] && BodyFits(w, inUse)
  }

  // ---- Validation -------------------------------------------------------------------------

  datatype Problem =
    | EmptyName
    | NoStates
    | DuplicateId(id: string)
    | UnknownCategory(id: string)
    | TerminalClaimable(id: string)
    | ClaimableDone(id: string)
    | UnknownInitial
    | LeavesTerminal(from: string, to: string)
    | UnknownFrom(from: string, to: string)
    | UnknownTo(from: string, to: string)
    | BadRequires(from: string, to: string, error: BadRequirement)
    | NoTerminal
    | NoPath(id: string)
    | Stranded(ids: seq<string>)

  lemma DistinctNext(states: seq<WorkflowState>, i: nat)
    requires i < |states|
    ensures DistinctIds(states[..i + 1])
       <==> DistinctIds(states[..i]) && states[i].id !in set j | 0 <= j < i :: states[j].id
  {
  }

  /** When a problem is due to the state at a position. */
  ghost predicate StateFault(states: seq<WorkflowState>, k: nat, p: Problem)
    requires k < |states|
  {
    var s := states[k];
    match p
    case DuplicateId(id) => s.id == id && exists j :: 0 <= j < k && states[j].id == id
    case UnknownCategory(id) => s.id == id && s.category !in CATEGORIES
    case TerminalClaimable(id) => s.id == id && s.terminal && s.claimable
    case ClaimableDone(id) => s.id == id && s.claimable && (s.category == "done" || s.category == "cancelled")
    case _ => false
  }

  ghost predicate StatesFault(states: seq<WorkflowState>, upto: nat, p: Problem)
    requires upto <= |states|
  {
    exists k :: 0 <= k < upto && StateFault(states, k, p)
  }

  lemma StatesFaultNext(states: seq<WorkflowState>, k: nat, p: Problem)
    requires k < |states|
    ensures StatesFault(states, k + 1, p) <==> StatesFault(states, k, p) || StateFault(states, k, p)
  {
  }

  /** The body of the loop over the states. */
  method CheckState(states: seq<WorkflowState>, k: nat, seen: set<string>) returns (problems: seq<Problem>)
    requires k < |states| && seen == set j | 0 <= j < k :: states[j].id
    ensures problems == [] <==> states[k].id !in seen && StateFits(states[k])
    ensures forall p :: p in problems <==> StateFault(states, k, p)
  {
    var s := states[k];
    assert s.id in seen <==> exists j :: 0 <= j < k && states[j].id == s.id;
    problems := if s.id in seen then [DuplicateId(s.id)] else [];
    if s.category !in CATEGORIES {
      problems := problems + [UnknownCategory(s.id)];
    }
    if s.terminal && s.claimable {
      problems := problems + [TerminalClaimable(s.id)];
    }
    if s.claimable && (s.category == "done" || s.category == "cancelled") {
      problems := problems + [ClaimableDone(s.id)];
    }
  }

  method CheckStates(w: Workflow) returns (problems: seq<Problem>)
    ensures problems == [] <==> DistinctIds(w.states) && forall s :: s in w.states ==> StateFits(s)
    ensures forall p :: p in problems <==> StatesFault(w.states, |w.states|, p)
  {
    problems := [];
    var seen: set<string> := {};
    for i := 0 to |w.states|
      invariant seen == set j | 0 <= j < i :: w.states[j].id
      invariant problems == [] <==> DistinctIds(w.states[..i]) && forall j :: 0 <= j < i ==> StateFits(w.states[j])
      invariant forall p :: p in problems <==> StatesFault(w.states, i, p)
    {
      DistinctNext(w.states, i);
      var more := CheckState(w.states, i, seen);
      forall p ensures p in problems + more <==> StatesFault(w.states, i + 1, p) {
        StatesFaultNext(w.states, i, p);
      }
      problems := problems + more;
      seen := seen + {w.states[i].id};
    }
    assert w.states[..|w.states|] == w.states;
  }

  method CollectIds(w: Workflow) returns (ids: set<string>, terminal: set<string>)
    ensures ids == Ids(w) && terminal == TerminalIds(w)
  {
    ids, terminal := {}, {};
    for i := 0 to |w.states|
      invariant forall id :: id in ids <==> exists j :: 0 <= j < i && w.states[j].id == id
      invariant forall id :: id in terminal <==> exists j :: 0 <= j < i && w.states[j].id == id && w.states[j].terminal
    {
      ids := ids + {w.states[i].id};
      if w.states[i].terminal {
        terminal := terminal + {w.states[i].id};
      }
    }
  }

  /** When a problem is due to a transition. */
  ghost predicate TransitionFault(w: Workflow, t: Transition, p: Problem) {
    match p
    case LeavesTerminal(from, to) => t.from == from && t.to == to && from in TerminalIds(w)
    case UnknownFrom(from, to) => t.from == from && t.to == to && from !in Ids(w)
    case UnknownTo(from, to) => t.from == from && t.to == to && to !in Ids(w)
    case BadRequires(from, to, e) => t.from == from && t.to == to && exists r :: r in t.requirements && Parse(r) == Err(e)
    case _ => false
  }

  ghost predicate TransitionsFault(w: Workflow, ts: seq<Transition>, p: Problem) {
    exists t :: t in ts && TransitionFault(w, t, p)
  }

  lemma TransitionsFaultNext(w: Workflow, ts: seq<Transition>, t: Transition, p: Problem)
    ensures TransitionsFault(w, ts + [t], p) <==> TransitionsFault(w, ts, p) || TransitionFault(w, t, p)
  {
    assert t in ts + [t];
    if TransitionsFault(w, ts, p) {
      var u :| u in ts && TransitionFault(w, u, p);
      assert u in ts + [t];
    }
  }

  method CheckRequirements(t: Transition) returns (problems: seq<Problem>)
    ensures problems == [] <==> forall r :: r in t.requirements ==> Parse(r).Ok?
    ensures forall p :: p in problems <==>
              && p.BadRequires? && p.from == t.from && p.to == t.to
              && exists r :: r in t.requirements && Parse(r) == Err(p.error)
  {
    problems := [];
    for i := 0 to |t.requirements|
      invariant problems == [] <==> forall j :: 0 <= j < i ==> Parse(t.requirements[j]).Ok?
      invariant forall p :: p in problems <==>
                  && p.BadRequires? && p.from == t.from && p.to == t.to
                  && exists j :: 0 <= j < i && Parse(t.requirements[j]) == Err(p.error)
    {
      match Parse(t.requirements[i])
      case Ok(_) =>
      case Err(e) => problems := problems + [BadRequires(t.from, t.to, e)];
    }
  }

  /** The body of the loop over the transitions. */
  method CheckTransition(w: Workflow, t: Transition, ids: set<string>, terminal: set<string>)
    returns (problems: seq<Problem>)
    requires ids == Ids(w) && terminal == TerminalIds(w)
    ensures problems == [] <==> TransitionFits(w, t)
    ensures forall p :: p in problems <==> TransitionFault(w, t, p)
  {
    problems := if t.from in terminal then [LeavesTerminal(t.from, t.to)] else [];
    if t.from !in ids {
      problems := problems + [UnknownFrom(t.from, t.to)];
    }
    if t.to !in ids {
      problems := problems + [UnknownTo(t.from, t.to)];
    }
    var more := CheckRequirements(t);
    problems := problems + more;
  }

  method CheckTransitions(w: Workflow, ids: set<string>, terminal: set<string>) returns (problems: seq<Problem>)
    requires ids == Ids(w) && terminal == TerminalIds(w)
    ensures problems == [] <==> forall t :: t in w.transitions ==> TransitionFits(w, t)
    ensures forall p :: p in problems <==> TransitionsFault(w, w.transitions, p)
  {
    problems := [];
    for i := 0 to |w.transitions|
      invariant problems == [] <==> forall j :: 0 <= j < i ==> TransitionFits(w, w.transitions[j])
      invariant forall p :: p in problems <==> TransitionsFault(w, w.transitions[..i], p)
    {
      var more := CheckTransition(w, w.transitions[i], ids, terminal);
      assert w.transitions[..i + 1] == w.transitions[..i] + [w.transitions[i]];
      forall p ensures p in problems + more <==> TransitionsFault(w, w.transitions[..i + 1], p) {
        TransitionsFaultNext(w, w.transitions[..i], w.transitions[i], p);
      }
      problems := problems + more;
    }
    assert w.transitions[..|w.transitions|] == w.transitions;
  }

  // ---- Reverse reachability ---------------------------------------------------------------

  ghost predicate PredsOf(preds: map<string, seq<string>>, ts: seq<Transition>) {
    forall a, b :: Links(ts, a, b) <==> b in preds && a in preds[b]
  }

  method Predecessors(w: Workflow) returns (preds: map<string, seq<string>>)
    ensures PredsOf(preds, w.transitions)
  {
    preds := map[];
    for i := 0 to |w.transitions|
      invariant PredsOf(preds, w.transitions[..i])
    {
      var t := w.transitions[i];
      var earlier := if t.to in preds then preds[t.to] else [];
      PredsOneMore(preds, w.transitions[..i], t, earlier);
      assert w.transitions[..i + 1] == w.transitions[..i] + [t];
      preds := preds[t.to := earlier + [t.from]];
    }
    assert w.transitions[..|w.transitions|] == w.transitions;
  }

  lemma PredsAt(w: Workflow, preds: map<string, seq<string>>, node: string, ps: seq<string>)
    requires PredsOf(preds, w.transitions) && ps == if node in preds then preds[node] else []
    ensures forall a :: Edge(w, a, node) <==> a in ps
  {
  }

  lemma PredsOneMore(preds: map<string, seq<string>>, ts: seq<Transition>, t: Transition, earlier: seq<string>)
    requires PredsOf(preds, ts) && earlier == if t.to in preds then preds[t.to] else []
    ensures PredsOf(preds[t.to := earlier + [t.from]], ts + [t])
  {
    var preds' := preds[t.to := earlier + [t.from]];
    forall a, b
      ensures Links(ts + [t], a, b) <==> b in preds' && a in preds'[b]
    {
      LinkOneMore(ts, t, a, b);
      if b == t.to {
        assert a in preds'[b] <==> a in earlier || a == t.from;
      }
    }
  }

  lemma LinkOneMore(ts: seq<Transition>, t: Transition, a: string, b: string)
    ensures Links(ts + [t], a, b) <==> Links(ts, a, b) || (t.from == a && t.to == b)
  {
    assert t in ts + [t];
    if Links(ts, a, b) {
      var u :| u in ts && u.from == a && u.to == b;
      assert u in ts + [t];
    }
  }

  method ToSeq(ids: set<string>) returns (xs: seq<string>)
    ensures forall id :: id in xs <==> id in ids
  {
    xs := [];
    var rest := ids;
    while rest != {}
      invariant rest <= ids
      invariant forall id :: id in xs <==> id in ids - rest
    {
      var id :| id in rest;
      rest := rest - {id};
      xs := xs + [id];
    }
  }

  lemma StepBack(w: Workflow, a: string, b: string)
    requires Edge(w, a, b) && CanFinish(w, b)
    ensures CanFinish(w, a)
  {
    var p :| Finishes(w, p) && p[0] == b;
    var q := [a] + p;
    forall i | 0 <= i < |q| - 1
      ensures Edge(w, q[i], q[i + 1])
    {
      if i > 0 { assert Edge(w, p[i - 1], p[i - 1 + 1]); }
    }
    assert Finishes(w, q) && q[0] == a;
  }

  lemma TerminalFinishes(w: Workflow, id: string)
    requires id in TerminalIds(w)
    ensures CanFinish(w, id)
  {
    assert Finishes(w, [id]) && [id][0] == id;
  }

  /** A set that holds the terminals and is closed under predecessors holds every state
      that can finish. */
  lemma {:induction false} ClosedIsComplete(w: Workflow, reach: set<string>, p: seq<string>)
    requires TerminalIds(w) <= reach && forall a, b :: Edge(w, a, b) && b in reach ==> a in reach
    requires Finishes(w, p)
    ensures p[0] in reach
  {
    if |p| > 1 {
      forall i | 0 <= i < |p[1..]| - 1
        ensures Edge(w, p[1..][i], p[1..][i + 1])
      {
        assert Edge(w, p[i + 1], p[i + 1 + 1]);
      }
      ClosedIsComplete(w, reach, p[1..]);
      assert Edge(w, p[0], p[0 + 1]);
    }
  }

  /** Every predecessor of a marked node is marked, or the node still waits its turn. */
  ghost predicate ClosedExcept(w: Workflow, reach: set<string>, queue: seq<string>) {
    forall a, b :: Edge(w, a, b) && b in reach && b !in queue ==> a in reach
  }

  lemma ClosedStep(w: Workflow, reach: set<string>, queue: seq<string>, node: string, reach': set<string>,
                   queue': seq<string>)
    requires ClosedExcept(w, reach, queue + [node])
    requires reach <= reach' && queue <= queue'
    requires forall a :: Edge(w, a, node) ==> a in reach'
    requires forall id :: id in reach' && id !in reach ==> id in queue'
    ensures ClosedExcept(w, reach', queue')
  {
    forall a, b | Edge(w, a, b) && b in reach' && b !in queue'
      ensures a in reach'
    {
      assert forall id :: id in queue ==> id in queue';
    }
  }

  lemma ClosedHoldsAll(w: Workflow, reach: set<string>)
    requires TerminalIds(w) <= reach && ClosedExcept(w, reach, [])
    ensures forall id :: CanFinish(w, id) ==> id in reach
  {
    forall id | CanFinish(w, id)
      ensures id in reach
    {
      var p :| Finishes(w, p) && p[0] == id;
      ClosedIsComplete(w, reach, p);
    }
  }

  ghost function Candidates(w: Workflow): set<string> {
    TerminalIds(w) + set t | t in w.transitions :: t.from
  }

  lemma CandidateFrom(w: Workflow, a: string, b: string)
    requires Edge(w, a, b)
    ensures a in Candidates(w)
  {
  }

  /** The worklist finds exactly the states that have a path to a terminal one. */
  method ReachTerminal(w: Workflow, terminal: set<string>) returns (reach: set<string>)
    requires terminal == TerminalIds(w)
    ensures forall id :: id in reach <==> CanFinish(w, id)
  {
    var preds := Predecessors(w);
    reach := terminal;
    var queue := ToSeq(terminal);
    forall id | id in terminal
      ensures CanFinish(w, id)
    {
      TerminalFinishes(w, id);
    }
    while queue != []
      invariant terminal <= reach <= Candidates(w)
      invariant forall id :: id in reach ==> CanFinish(w, id)
      invariant forall id :: id in queue ==> id in reach
      invariant ClosedExcept(w, reach, queue)
      decreases Candidates(w) - reach, |queue|
    {
      var node, rest := queue[|queue| - 1], queue[..|queue| - 1];
      assert queue == rest + [node];
      var ps := if node in preds then preds[node] else [];
      PredsAt(w, preds, node, ps);
      var marked, waiting := PushNew(w, node, ps, reach, rest);
      ClosedStep(w, reach, rest, node, marked, waiting);
      reach, queue := marked, waiting;
    }
    ClosedHoldsAll(w, reach);
  }

  /** Mark the predecessors of a node that are not marked yet, and queue them. */
  method PushNew(w: Workflow, node: string, ps: seq<string>, reach: set<string>, queue: seq<string>)
    returns (reach': set<string>, queue': seq<string>)
    requires reach <= Candidates(w) && forall p :: p in ps ==> Edge(w, p, node)
    requires CanFinish(w, node) && forall id :: id in reach ==> CanFinish(w, id)
    requires forall id :: id in queue ==> id in reach
    ensures reach <= reach' <= Candidates(w) && queue <= queue'
    ensures forall p :: p in ps ==> p in reach'
    ensures forall id :: id in reach' ==> CanFinish(w, id)
    ensures forall id :: id in queue' ==> id in reach'
    ensures forall id :: id in reach' && id !in reach ==> id in queue'
    ensures reach' == reach ==> queue' == queue
  {
    reach', queue' := reach, queue;
    for i := 0 to |ps|
      invariant reach <= reach' <= Candidates(w) && queue <= queue'
      invariant forall j :: 0 <= j < i ==> ps[j] in reach'
      invariant forall id :: id in reach' ==> CanFinish(w, id)
      invariant forall id :: id in queue' ==> id in reach'
      invariant forall id :: id in reach' && id !in reach ==> id in queue'
      invariant reach' == reach ==> queue' == queue
    {
      if ps[i] !in reach' {
        StepBack(w, ps[i], node);
        CandidateFrom(w, ps[i], node);
        assert ps[i] in ps && ps[i] !in reach;
        reach' := reach' + {ps[i]};
        queue' := queue' + [ps[i]];
      }
    }
  }

  ghost predicate PathFault(w: Workflow, p: Problem) {
    p.NoPath? && exists s :: s in w.states && s.id == p.id && !s.terminal && !CanFinish(w, p.id)
  }

  /** The states in use that are in `ids` no more, in the order given. */
  ghost function Missing(inUse: seq<string>, ids: set<string>): seq<string> {
    if inUse == [] then []
    else Missing(inUse[..|inUse| - 1], ids) + (if inUse[|inUse| - 1] in ids then [] else [inUse[|inUse| - 1]])
  }

  /** When a problem is there in a workflow that has states. */
  ghost predicate BodyFault(w: Workflow, inUse: seq<string>, p: Problem) {
    || StatesFault(w.states, |w.states|, p)
    || (p == UnknownInitial && w.initial !in Ids(w))
    || TransitionsFault(w, w.transitions, p)
    || (if TerminalIds(w) == {} then p == NoTerminal else PathFault(w, p))
    || (p.Stranded? && p.ids != [] && p.ids == Missing(inUse, Ids(w)))
  }

  ghost predicate Fault(w: Workflow, inUse: seq<string>, p: Problem) {
    || (p == EmptyName && Trim(w.name) == "")
    || (if w.states == [] then p == NoStates else BodyFault(w, inUse, p))
  }

  /** Validation accepts exactly the acceptable workflows, and otherwise reports exactly
      the problems that are there; so it names as stranding exactly the non-terminal states
      from which no terminal state can be reached. */
  method Validate(w: Workflow, inUse: seq<string>) returns (problems: seq<Problem>)
    ensures problems == [] <==> Acceptable(w, inUse)
    ensures forall p :: p in problems <==> Fault(w, inUse, p)
  {
    problems := [];
    if Trim(w.name) == "" {
      problems := problems + [EmptyName];
    }
    if w.states == [] {
      return problems + [NoStates];
    }
    var more := ValidateBody(w, inUse);
    problems := problems + more;
  }

  method ValidateBody(w: Workflow, inUse: seq<string>) returns (problems: seq<Problem>)
    ensures problems == [] <==> BodyFits(w, inUse)
    ensures forall p :: p in problems <==> BodyFault(w, inUse, p)
  {
    var ids, terminal := CollectIds(w);
    var states := CheckStates(w);
    var initial := if w.initial in ids then [] else [UnknownInitial];
    var transitions := CheckTransitions(w, ids, terminal);
    var paths := [NoTerminal];
    if terminal != {} {
      paths := CheckPaths(w, terminal);
    }
    var stranded := StrandedIn(inUse, ids);
    var inPlace := if stranded == [] then [] else [Stranded(stranded)];
    problems := states + initial + transitions + paths + inPlace;
  }

  method CheckPaths(w: Workflow, terminal: set<string>) returns (problems: seq<Problem>)
    requires terminal == TerminalIds(w)
    ensures problems == [] <==> forall s :: s in w.states && !s.terminal ==> CanFinish(w, s.id)
    ensures forall p :: p in problems <==> PathFault(w, p)
  {
    var reach := ReachTerminal(w, terminal);
    problems := [];
    for i := 0 to |w.states|
      invariant problems == [] <==> forall j :: 0 <= j < i && !w.states[j].terminal ==> CanFinish(w, w.states[j].id)
      invariant forall p :: p in problems <==>
                  && p.NoPath?
                  && exists j :: 0 <= j < i && w.states[j].id == p.id && !w.states[j].terminal && !CanFinish(w, p.id)
    {
      var s := w.states[i];
      if !s.terminal && s.id !in reach {
        problems := problems + [NoPath(s.id)];
      }
    }
  }

  method StrandedIn(inUse: seq<string>, ids: set<string>) returns (stranded: seq<string>)
    ensures forall id :: id in stranded <==> id in inUse && id !in ids
    ensures stranded == [] <==> forall id :: id in inUse ==> id in ids
    ensures stranded == Missing(inUse, ids)
  {
    stranded := [];
    for i := 0 to |inUse|
      invariant forall id :: id in stranded <==> id in inUse[..i] && id !in ids
      invariant stranded == Missing(inUse[..i], ids)
      invariant stranded == [] <==> forall j :: 0 <= j < i ==> inUse[j] in ids
    {
      assert inUse[..i + 1] == inUse[..i] + [inUse[i]] && inUse[..i + 1][..i] == inUse[..i];
      if inUse[i] !in ids {
        stranded := stranded + [inUse[i]];
      }
    }
    assert inUse[..|inUse|] == inUse;
  }

  // ---- What acceptance promises ---------------------------------------------------------------

  ghost predicate Distinct(p: seq<string>) {
    forall i, j :: 0 <= i < j < |p| ==> p[i] != p[j]
  }

  /** Cutting a loop out of a path leaves a path. */
  lemma CutLoop(w: Workflow, p: seq<string>, i: nat, j: nat)
    requires Finishes(w, p) && i < j < |p| && p[i] == p[j]
    ensures Finishes(w, p[..i] + p[j..]) && (p[..i] + p[j..])[0] == p[0]
  {
    var q := p[..i] + p[j..];
    forall k | 0 <= k < |q| - 1
      ensures Edge(w, q[k], q[k + 1])
    {
      if k < i { assert Edge(w, p[k], p[k + 1]); } else { assert Edge(w, p[k - i + j], p[k - i + j + 1]); }
    }
  }

  lemma {:induction false} LoopFree(w: Workflow, p: seq<string>) returns (q: seq<string>)
    requires Finishes(w, p)
    ensures Finishes(w, q) && Distinct(q) && q[0] == p[0]
    decreases |p|
  {
    if i, j :| 0 <= i < j < |p| && p[i] == p[j] {
      CutLoop(w, p, i, j);
      q := LoopFree(w, p[..i] + p[j..]);
    } else {
      q := p;
    }
  }

  lemma {:induction false} DistinctFits(p: seq<string>, ids: set<string>)
    requires Distinct(p) && forall i :: 0 <= i < |p| ==> p[i] in ids
    ensures |p| <= |ids|
  {
    if p != [] {
      DistinctFits(p[1..], ids - {p[0]});
    }
  }

  lemma {:induction false} IdsBound(states: seq<WorkflowState>)
    ensures |set s | s in states :: s.id| <= |states|
  {
    if states != [] {
      IdsBound(states[1..]);
      assert (set s | s in states :: s.id) == (set s | s in states[1..] :: s.id) + {states[0].id};
    }
  }

  lemma {:induction false} PathInIds(w: Workflow, inUse: seq<string>, p: seq<string>, i: nat)
    requires Acceptable(w, inUse) && IsPath(w, p) && p[0] in Ids(w) && i < |p|
    ensures p[i] in Ids(w)
  {
    if i > 0 {
      assert Edge(w, p[i - 1], p[i - 1 + 1]);
      var t :| t in w.transitions && t.from == p[i - 1] && t.to == p[i];
      assert TransitionFits(w, t);
    }
  }

  /** Terminal states end the lifecycle: no transition leaves one. */
  lemma TerminalAbsorbs(w: Workflow, inUse: seq<string>, from: string, to: string)
    requires Acceptable(w, inUse) && Edge(w, from, to)
    ensures from !in TerminalIds(w)
  {
    var t :| t in w.transitions && t.from == from && t.to == to;
    assert TransitionFits(w, t);
  }

  lemma DefinedCanFinish(w: Workflow, inUse: seq<string>, id: string)
    requires Acceptable(w, inUse) && id in Ids(w)
    ensures CanFinish(w, id)
  {
    var s :| s in w.states && s.id == id;
    if s.terminal {
      TerminalFinishes(w, id);
    }
  }

  /** Never strand a ticket: in an accepted workflow a ticket that starts in the initial
      state, or in a state some ticket is in now, only ever reaches defined states, and
      from each of them a terminal state is fewer than |states| transitions away. */
  lemma NeverStranded(w: Workflow, inUse: seq<string>, run: seq<string>) returns (completion: seq<string>)
    requires Acceptable(w, inUse) && IsPath(w, run) && (run[0] == w.initial || run[0] in inUse)
    ensures forall i :: 0 <= i < |run| ==> run[i] in Ids(w)
    ensures Finishes(w, completion) && completion[0] == run[|run| - 1] && |completion| - 1 < |w.states|
  {
    forall i | 0 <= i < |run|
      ensures run[i] in Ids(w)
    {
      PathInIds(w, inUse, run, i);
    }
    DefinedCanFinish(w, inUse, run[|run| - 1]);
    var p :| Finishes(w, p) && p[0] == run[|run| - 1];
    completion := LoopFree(w, p);
    forall i | 0 <= i < |completion|
      ensures completion[i] in Ids(w)
    {
      PathInIds(w, inUse, completion, i);
    }
    DistinctFits(completion, Ids(w));
    IdsBound(w.states);
  }
}

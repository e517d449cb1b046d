/**
 `AccountCreateBulk.Save`: every builder has a chain of hooks around an innermost mutator that
 checks the builder, fills its spec and calls the chain of the next builder; the last one inserts
 all specs as one batch, and on the way back every mutation is marked done.

 The outcome of the whole nest of calls is defined without any heap, by what the hooks of each
 builder hand on, and `Save` is proved to produce exactly that outcome.
 */
module BulkCreate {
  import opened Wrappers

  /** The fields set on a mutation. */
  type Fields = map<string, string>

  datatype SaveError =
    | Missing(name: string)
    | Invalid(name: string)
    | Rejected(message: string)
    | Raised(message: string)
    | BatchFailed(message: string)
    | BulkFailed(message: string)

  // ---------------------------------------------------------------- defaults and check

  datatype Rule = Rule(name: string, required: bool, validated: bool)

  /** The rules of `check`, in the order they are applied. */
  const ACCOUNT_RULES: seq<Rule> := [
    Rule("created_at", true, false), Rule("updated_at", true, false),
    Rule("name", true, true), Rule("platform", true, true), Rule("type", true, true),
    Rule("credentials", true, false), Rule("extra", true, false), Rule("concurrency", true, false),
    Rule("priority", true, false), Rule("rate_multiplier", true, false), Rule("status", true, true),
    Rule("auto_pause_on_expired", true, false), Rule("schedulable", true, false),
    Rule("session_window_status", false, true), Rule("quota_dimension", true, true)]

  /** The fields `defaults` fills in, in order. */
  const DEFAULTED: seq<string> := [
    "created_at", "updated_at", "credentials", "extra", "concurrency", "priority", "rate_multiplier",
    "status", "auto_pause_on_expired", "schedulable", "quota_dimension"]

  /** The account schema: its rules and validators, and the defaults; a default function that was
      never registered is absent. */
  datatype Schema = Schema(rules: seq<Rule>, valid: (string, string) -> bool, defaulted: seq<string>, defaults: Fields)
  {
    predicate Meets(rule: Rule, fields: Fields) {
      && (rule.required ==> rule.name in fields)
      && (rule.validated && rule.name in fields ==> valid(rule.name, fields[rule.name]))
    }
  }

  /** The error of the first rule the fields break. */
  function FirstFailure(schema: Schema, from: nat, fields: Fields): Option<SaveError>
    requires from <= |schema.rules|
    decreases |schema.rules| - from
  {
    if from == |schema.rules| then None
    else if schema.Meets(schema.rules[from], fields) then FirstFailure(schema, from + 1, fields)
    else if schema.rules[from].name in fields then Some(Invalid(schema.rules[from].name))
    else Some(Missing(schema.rules[from].name))
  }

  predicate Checked(schema: Schema, fields: Fields) {
    forall rule <- schema.rules :: schema.Meets(rule, fields)
  }

  lemma {:induction false} NoFailureIffChecked(schema: Schema, from: nat, fields: Fields)
    requires from <= |schema.rules|
    ensures FirstFailure(schema, from, fields).None? <==>
            forall k :: from <= k < |schema.rules| ==> schema.Meets(schema.rules[k], fields)
    decreases |schema.rules| - from
  {
    if from < |schema.rules| {
      NoFailureIffChecked(schema, from + 1, fields);
    }
  }

  /** The error is that of the first broken rule: its field is missing when it is not set, and invalid
      when it is. */
  lemma {:induction false} FailureIsOfFirstBrokenRule(schema: Schema, from: nat, fields: Fields, e: SaveError)
    requires from <= |schema.rules|
    ensures FirstFailure(schema, from, fields) == Some(e) <==>
            exists k :: from <= k < |schema.rules| && !schema.Meets(schema.rules[k], fields)
                        && (forall j :: from <= j < k ==> schema.Meets(schema.rules[j], fields))
                        && e == (if schema.rules[k].name in fields then Invalid(schema.rules[k].name) else Missing(schema.rules[k].name))
    decreases |schema.rules| - from
  {
    if from < |schema.rules| && schema.Meets(schema.rules[from], fields) {
      FailureIsOfFirstBrokenRule(schema, from + 1, fields, e);
    }
  }

  /** Fields that are set stay; of the others, those up to the first one without a default are filled in. */
  function WithDefaults(schema: Schema, from: nat, fields: Fields): Fields
    requires from <= |schema.defaulted|
    decreases |schema.defaulted| - from
  {
    if from == |schema.defaulted| then fields else
    var name := schema.defaulted[from];
    if name in fields then WithDefaults(schema, from + 1, fields)
    else if name !in schema.defaults then fields
    else WithDefaults(schema, from + 1, fields[name := schema.defaults[name]])
  }

  lemma {:induction false} DefaultsOnlyAdd(schema: Schema, from: nat, fields: Fields)
    requires from <= |schema.defaulted|
    ensures var r := WithDefaults(schema, from, fields);
            && (forall name :: name in r ==> (name in fields && r[name] == fields[name]) ||
                                             (name !in fields && name in schema.defaults && r[name] == schema.defaults[name]))
            && (forall name :: name in fields ==> name in r)
            && ((exists k :: from <= k < |schema.defaulted| && schema.defaulted[k] !in fields && schema.defaulted[k] !in schema.defaults) ||
                forall k :: from <= k < |schema.defaulted| ==> schema.defaulted[k] in r)
    decreases |schema.defaulted| - from
  {
    if from == |schema.defaulted| {
      return;
    }
    var name := schema.defaulted[from];
    if name in fields {
      DefaultsOnlyAdd(schema, from + 1, fields);
    } else if name in schema.defaults {
      DefaultsOnlyAdd(schema, from + 1, fields[name := schema.defaults[name]]);
    }
  }

  // ---------------------------------------------------------------- hooks

  /** A hook calls the next mutator at most once: it edits the mutation or rejects it, hands on that
      mutation or one of its own, and turns the outcome it gets back into its own. */
  datatype Hook = Hook(before: Fields -> Result<Fields, string>, substitute: Option<Fields -> Fields>,
                       raises: Option<string>, swallows: bool)
  {
    function After(outcome: Option<SaveError>): Option<SaveError> {
      match outcome
      case None => if raises.Some? then Some(Raised(raises.value)) else None
      case Some(e) => if swallows then None else Some(e)
    }
  }

  /** A builder before the run. */
  datatype Job = Job(fields: Fields, done: bool, hooks: seq<Hook>)

  /** What reaches the innermost mutator: the fields of the builder's own mutation, which are checked,
      those of the mutation it is passed, and whether the two are one mutation. */
  datatype Handed = Handed(checked: Fields, passed: Fields, own: bool)

  function Hand(hooks: seq<Hook>, h: nat, now: Handed): Result<Handed, string>
    requires h <= |hooks|
    decreases |hooks| - h
  {
    if h == |hooks| then Ok(now) else
    match hooks[h].before(now.passed)
    case Err(m) => Err(m)
    case Ok(edited) =>
      var checked := if now.own then edited else now.checked;
      match hooks[h].substitute
      case None => Hand(hooks, h + 1, Handed(checked, edited, now.own))
      case Some(other) => Hand(hooks, h + 1, Handed(checked, other(edited), false))
  }

  function HandAll(job: Job): Result<Handed, string> {
    Hand(job.hooks, 0, Handed(job.fields, job.fields, true))
  }

  /** What hook `h` returns, given the outcome of the innermost mutator. */
  function Unwind(hooks: seq<Hook>, h: nat, now: Handed, inner: Option<SaveError>): Option<SaveError>
    requires h <= |hooks|
    decreases |hooks| - h
  {
    if h == |hooks| then inner else
    match hooks[h].before(now.passed)
    case Err(m) => Some(Rejected(m))
    case Ok(edited) =>
      var checked := if now.own then edited else now.checked;
      match hooks[h].substitute
      case None => hooks[h].After(Unwind(hooks, h + 1, Handed(checked, edited, now.own), inner))
      case Some(other) => hooks[h].After(Unwind(hooks, h + 1, Handed(checked, other(edited), false), inner))
  }

  predicate Passes(schema: Schema, job: Job) {
    HandAll(job).Ok? && FirstFailure(schema, 0, HandAll(job).value.checked).None?
  }

  /** What the innermost mutator of builder `i` returns when the chain of the next one returned `next`. */
  function Inner(schema: Schema, job: Job, next: Option<SaveError>): Option<SaveError> {
    if HandAll(job).Err? then None
    else if FirstFailure(schema, 0, HandAll(job).value.checked).Some? then FirstFailure(schema, 0, HandAll(job).value.checked)
    else next
  }

  /** What the chain of builder `i` returns, given the outcome of the batch. */
  function Outcome(schema: Schema, jobs: seq<Job>, i: nat, batch: Option<SaveError>): Option<SaveError>
    requires i <= |jobs|
    decreases |jobs| - i
  {
    if i == |jobs| then batch
    else Unwind(jobs[i].hooks, 0, Handed(jobs[i].fields, jobs[i].fields, true),
                Inner(schema, jobs[i], Outcome(schema, jobs, i + 1, batch)))
  }

  /** The fields a builder puts in its spec. */
  function Candidate(job: Job): Fields {
    if HandAll(job).Ok? then HandAll(job).value.passed else map[]
  }

  function Candidates(jobs: seq<Job>): seq<Fields> {
    seq(|jobs|, k requires 0 <= k < |jobs| => Candidate(jobs[k]))
  }

  /** The insertion of a batch of rows: an error, or the id given to each row, if any. */
  type Insert = seq<Fields> -> Result<nat -> Option<int>, string>

  function BatchError(insert: Insert, rows: seq<Fields>): Option<SaveError> {
    if insert(rows).Err? then Some(BatchFailed(insert(rows).error)) else None
  }

  /** The run of a bulk save. */
  datatype Run = Run(schema: Schema, jobs: seq<Job>, insert: Insert)
  {
    /** The mutators of the builders from `i` to `k` all get as far as their specs. */
    predicate Reached(i: nat, k: nat)
      requires k < |jobs|
    {
      forall j :: i <= j <= k ==> Passes(schema, jobs[j])
    }

    predicate BatchRuns(i: nat) {
      forall j :: i <= j < |jobs| ==> Passes(schema, jobs[j])
    }

    function Returns(i: nat): Option<SaveError>
      requires i <= |jobs|
    {
      Outcome(schema, jobs, i, BatchError(insert, Candidates(jobs)))
    }

    /** The id the batch gives to row `k`, if the batch runs from builder `i` on and succeeds. */
    function Id(i: nat, k: nat): Option<int> {
      if BatchRuns(i) && insert(Candidates(jobs)).Ok? then insert(Candidates(jobs)).value(k) else None
    }

    function NodeId(i: nat, k: nat): int
      requires k < |jobs|
    {
      if Returns(k + 1).None? && Id(i, k).Some? then Id(i, k).value else 0
    }

    /** The node of builder `k` when the chains from builder `i` on have returned. */
    function ExpectedNode(i: nat, k: nat): Option<Node>
      requires k < |jobs|
    {
      if Reached(i, k) then Some(Node(Candidate(jobs[k]), NodeId(i, k))) else None
    }

    predicate Own(k: nat)
      requires k < |jobs|
    {
      HandAll(jobs[k]).Ok? && HandAll(jobs[k]).value.own
    }

    lemma Stops(i: nat)
      requires i < |jobs| && !Passes(schema, jobs[i])
      ensures !BatchRuns(i)
      ensures forall k :: 0 <= k < |jobs| ==> (Reached(i, k) <==> k < i)
      ensures forall k :: Id(i, k) == None
      ensures forall k :: i <= k < |jobs| ==> ExpectedNode(i, k) == None
    {
    }

    lemma GoesOn(i: nat)
      requires i < |jobs| && Passes(schema, jobs[i])
      ensures BatchRuns(i) <==> BatchRuns(i + 1)
      ensures Reached(i, i)
      ensures forall k :: 0 <= k < |jobs| ==> ExpectedNode(i, k) == ExpectedNode(i + 1, k)
      ensures forall k :: 0 <= k < |jobs| ==> (Reached(i, k) <==> Reached(i + 1, k))
      ensures forall k :: Id(i, k) == Id(i + 1, k)
    {
    }

    lemma AtTheEnd()
      ensures BatchRuns(|jobs|)
      ensures forall k :: 0 <= k < |jobs| ==> Reached(|jobs|, k)
      ensures forall k :: Id(|jobs|, k) == if insert(Candidates(jobs)).Ok? then insert(Candidates(jobs)).value(k) else None
      ensures Returns(|jobs|) == BatchError(insert, Candidates(jobs))
    {
    }
  }

  // ---------------------------------------------------------------- the objects

  class Mutation {
    var fields: Fields
    var done: bool
    var id: Option<int>

    constructor (fields: Fields)
      ensures this.fields == fields && !done && id == None
    {
      this.fields := fields;
      done := false;
      id := None;
    }
  }

  datatype Spec = Spec(fields: Fields, id: Option<int>)

  datatype Node = Node(fields: Fields, id: int)

  class Driver {
    const insert: Insert
    var batches: seq<seq<Fields>>

    constructor (insert: Insert)
      ensures this.insert == insert && batches == []
    {
      this.insert := insert;
      batches := [];
    }
  }

  class Builder {
    const schema: Schema
    const hooks: seq<Hook>
    var mutation: Mutation

    constructor (schema: Schema, hooks: seq<Hook>, fields: Fields)
      ensures this.schema == schema && this.hooks == hooks
      ensures fresh(mutation) && mutation.fields == fields && !mutation.done
    {
      this.schema := schema;
      this.hooks := hooks;
      mutation := new Mutation(fields);
    }

    /** The error is the name of the first unset field that has no default. */
    method Defaults() returns (err: Option<string>)
      modifies mutation
      ensures mutation.fields == WithDefaults(schema, 0, old(mutation.fields))
      ensures mutation.done == old(mutation.done) && mutation.id == old(mutation.id)
    {
      for k := 0 to |schema.defaulted|
        invariant WithDefaults(schema, k, mutation.fields) == WithDefaults(schema, 0, old(mutation.fields))
        invariant mutation.done == old(mutation.done) && mutation.id == old(mutation.id)
      {
        var name := schema.defaulted[k];
        if name !in mutation.fields {
          if name !in schema.defaults {
            return Some(name);
          }
          mutation.fields := mutation.fields[name := schema.defaults[name]];
        }
      }
      err := None;
    }

    method Check() returns (err: Option<SaveError>)
      ensures err == FirstFailure(schema, 0, mutation.fields)
    {
      for k := 0 to |schema.rules|
        invariant FirstFailure(schema, k, mutation.fields) == FirstFailure(schema, 0, mutation.fields)
      {
        var rule := schema.rules[k];
        if rule.required && rule.name !in mutation.fields {
          return Some(Missing(rule.name));
        }
        if rule.validated && rule.name in mutation.fields && !schema.valid(rule.name, mutation.fields[rule.name]) {
          return Some(Invalid(rule.name));
        }
      }
      err := None;
    }

    method CreateSpec() returns (node: Node, spec: Spec)
      ensures node == Node(mutation.fields, 0) && spec == Spec(mutation.fields, None)
    {
      node, spec := Node(mutation.fields, 0), Spec(mutation.fields, None);
    }
  }

  /** The variables the nested closures of one `Save` share. */
  class Chain {
    const builders: seq<Builder>
    const driver: Driver
    const specs: array<Option<Spec>>
    const nodes: array<Option<Node>>
    ghost const run: Run
    ghost const origins: seq<Mutation>

    constructor (builders: seq<Builder>, driver: Driver, ghost run: Run, ghost origins: seq<Mutation>)
      ensures this.builders == builders && this.driver == driver && this.run == run && this.origins == origins
      ensures fresh(specs) && fresh(nodes) && specs.Length == nodes.Length == |builders|
      ensures forall k :: 0 <= k < |builders| ==> specs[k] == None && nodes[k] == None
    {
      this.builders, this.driver, this.run, this.origins := builders, driver, run, origins;
      specs := new Option<Spec>[|builders|](_ => None);
      nodes := new Option<Node>[|builders|](_ => None);
    }

    ghost predicate Shape() {
      && |builders| == |origins| == |run.jobs| == specs.Length == nodes.Length
      && (forall j, k :: 0 <= j < k < |builders| ==> builders[j] != builders[k] && origins[j] != origins[k])
      && (forall k :: 0 <= k < |builders| ==> builders[k].hooks == run.jobs[k].hooks && builders[k].schema == run.schema)
      && driver.insert == run.insert
    }

    /** What the chains from builder `i` on leave of the mutation of builder `k`. */
    ghost predicate Settled(i: nat, k: nat)
      requires Shape() && k < |builders|
      reads builders[k], builders[k].mutation, origins[k]
    {
      var m := builders[k].mutation;
      if run.Reached(i, k) then
        && m.fields == Candidate(run.jobs[k])
        && (m == origins[k] <==> run.Own(k))
        && m.done == ((run.Own(k) && run.jobs[k].done) || run.Returns(k + 1).None?)
        && (!run.Own(k) ==> origins[k].done == run.jobs[k].done)
        && (run.Returns(k + 1).None? ==> m.id == Some(run.NodeId(i, k)))
      else
        m == origins[k] && m.done == run.jobs[k].done
    }

    ghost function Touched(i: nat): set<object> {
      (set k | i <= k < |builders| :: builders[k]) + (set k | i <= k < |origins| :: origins[k])
    }

    /** The chain of builder `i` is about to be entered: all before have filled their specs. */
    ghost predicate Waiting(i: nat)
      reads specs, nodes, Touched(i)
    {
      && Shape() && i <= |builders|
      && (forall k :: i <= k < |builders| ==>
            builders[k].mutation == origins[k] && origins[k].fields == run.jobs[k].fields && origins[k].done == run.jobs[k].done)
      && (forall k :: 0 <= k < |builders| ==> specs[k] == if k < i then Some(Spec(Candidate(run.jobs[k]), None)) else None)
      && (forall k :: i <= k < |builders| ==> nodes[k] == None)
    }

    /** The mutator of builder `i` is about to run from its hook `h` inwards on `m`. */
    ghost predicate Ready(i: nat, h: nat, m: Mutation)
      reads specs, nodes, m, Touched(i)
    {
      && Shape() && i < |builders| && h <= |builders[i].hooks|
      && builders[i].mutation == origins[i] && origins[i].done == run.jobs[i].done
      && (m == origins[i] || (m !in origins && !m.done))
      && Hand(builders[i].hooks, h, Handed(origins[i].fields, m.fields, m == origins[i])) == HandAll(run.jobs[i])
      && (forall k :: i < k < |builders| ==>
            builders[k].mutation == origins[k] && origins[k].fields == run.jobs[k].fields && origins[k].done == run.jobs[k].done)
      && (forall k :: 0 <= k < |builders| ==> specs[k] == if k < i then Some(Spec(Candidate(run.jobs[k]), None)) else None)
      && (forall k :: i <= k < |builders| ==> nodes[k] == None)
    }

    /** What the chains from builder `i` on leave behind. */
    ghost predicate Finished(i: nat, batches: seq<seq<Fields>>)
      requires Shape() && i <= |builders|
      reads specs, nodes, driver, set k | i <= k < |builders| :: builders[k], set k | i <= k < |builders| :: builders[k].mutation, Touched(i)
    {
      && driver.batches == batches + (if run.BatchRuns(i) then [Candidates(run.jobs)] else [])
      && (forall k :: 0 <= k < |builders| ==>
            specs[k] == if run.Reached(i, k) then Some(Spec(Candidate(run.jobs[k]), run.Id(i, k))) else None)
      && (forall k :: i <= k < |builders| ==> nodes[k] == run.ExpectedNode(i, k))
      && forall k :: i <= k < |builders| ==> Settled(i, k)
    }

    lemma NothingDone(i: nat, h: nat, m: Mutation)
      requires Ready(i, h, m) && !Passes(run.schema, run.jobs[i])
      ensures Finished(i, driver.batches)
      ensures forall k :: i <= k < |builders| ==> builders[k].mutation == origins[k]
    {
      run.Stops(i);
      AsTheyWere(i, h, m);
      hide HandAll, Candidate, Candidates, Passes, Run.Reached, Run.BatchRuns, Run.Returns, Run.Id, Run.Own, Run.ExpectedNode, Ready, Settled;
      forall k | i <= k < |builders| ensures Settled(i, k) {
        SettledUntouched(i, k);
      }
    }

    lemma AsTheyWere(i: nat, h: nat, m: Mutation)
      requires Ready(i, h, m)
      ensures Shape() && i < |builders|
      ensures forall k :: i <= k < |builders| ==> builders[k].mutation == origins[k] && origins[k].done == run.jobs[k].done
      ensures forall k :: 0 <= k < |builders| ==> specs[k] == if k < i then Some(Spec(Candidate(run.jobs[k]), None)) else None
      ensures forall k :: i <= k < |builders| ==> nodes[k] == None
    {
      hide Hand, HandAll, Candidate;
    }

    lemma SettledUntouched(i: nat, k: nat)
      requires Shape() && k < |builders| && !run.Reached(i, k)
      requires builders[k].mutation == origins[k] && origins[k].done == run.jobs[k].done
      ensures Settled(i, k)
    {
      hide HandAll, Candidate, Passes, Run.Reached, Run.Returns, Run.Id, Run.Own, Run.NodeId;
    }

    /** The mutator of builder `i` from its hook `h` inwards. */
    method Mutate(i: nat, h: nat, m: Mutation) returns (err: Option<SaveError>)
      requires Ready(i, h, m)
      modifies specs, nodes, driver, m, Touched(i)
      ensures err == Unwind(builders[i].hooks, h, old(Handed(origins[i].fields, m.fields, m == origins[i])),
                            Inner(run.schema, run.jobs[i], run.Returns(i + 1)))
      ensures Finished(i, old(driver.batches))
      ensures forall k :: 0 <= k < i ==> nodes[k] == old(nodes[k])
      ensures forall k :: i <= k < |builders| ==>
        builders[k].mutation == origins[k] || fresh(builders[k].mutation) || (k == i && builders[k].mutation == m)
      decreases |builders| - i, |builders[i].hooks| - h, 2
    {
      hide Hand, Unwind, Outcome, FirstFailure, HandAll, Run.Reached, Run.BatchRuns, Run.Own, Run.Returns, Run.Id;
      ghost var now := Handed(origins[i].fields, m.fields, m == origins[i]);
      ghost var inner := Inner(run.schema, run.jobs[i], run.Returns(i + 1));
      if h == |builders[i].hooks| {
        LastHook(builders[i].hooks, now, inner);
        err := Innermost(i, m);
        return;
      }
      var hook := builders[i].hooks[h];
      var edited := hook.before(m.fields);
      HookStep(builders[i].hooks, h, now, inner);
      if edited.Err? {
        NothingDone(i, h, m);
        return Some(Rejected(edited.error));
      }
      m.fields := edited.value;
      var next := m;
      if hook.substitute.Some? {
        next := new Mutation(hook.substitute.value(m.fields));
      }
      err := Mutate(i, h + 1, next);
      err := hook.After(err);
    }

    /** The innermost mutator of builder `i`. */
    method Innermost(i: nat, m: Mutation) returns (err: Option<SaveError>)
      requires i < |builders| && Ready(i, |builders[i].hooks|, m)
      modifies specs, nodes, driver, m, Touched(i)
      ensures err == Inner(run.schema, run.jobs[i], run.Returns(i + 1))
      ensures Finished(i, old(driver.batches))
      ensures forall k :: 0 <= k < i ==> nodes[k] == old(nodes[k])
      ensures forall k :: i <= k < |builders| ==>
        builders[k].mutation == origins[k] || fresh(builders[k].mutation) || (k == i && builders[k].mutation == m)
      decreases |builders| - i, 0, 1
    {
      hide Hand, Unwind, Outcome, FirstFailure, Finished, Settled, Run.Reached, Run.BatchRuns, Run.Returns, Run.Id;
      LastHook(builders[i].hooks, Handed(origins[i].fields, m.fields, m == origins[i]), None);
      err := builders[i].Check();
      if err.Some? {
        NothingDone(i, |builders[i].hooks|, m);
        return;
      }
      err := Proceed(i, m);
    }

    /** The innermost mutator of builder `i` when its check passed. */
    method Proceed(i: nat, m: Mutation) returns (err: Option<SaveError>)
      requires i < |builders| && Ready(i, |builders[i].hooks|, m) && Passes(run.schema, run.jobs[i])
      modifies specs, nodes, driver, m, Touched(i)
      ensures err == run.Returns(i + 1)
      ensures Finished(i, old(driver.batches))
      ensures forall k :: 0 <= k < i ==> nodes[k] == old(nodes[k])
      ensures forall k :: i <= k < |builders| ==>
        builders[k].mutation == origins[k] || fresh(builders[k].mutation) || (k == i && builders[k].mutation == m)
      decreases |builders| - i, 0, 0
    {
      hide Hand, Unwind, Outcome, FirstFailure, Finished, Settled, Run.Reached, Run.BatchRuns, Run.Returns, Run.Id, Candidates;
      LastIsOwn(run.jobs[i], Handed(origins[i].fields, m.fields, m == origins[i]));
      assert m !in Touched(i + 1);
      assert m.fields == Candidate(run.jobs[i]) && (m == origins[i] <==> run.Own(i));
      hide HandAll, Candidate, Passes, Inner, Run.Own;
      Fill(i, m);
      err := GoOn(i + 1);
      if err.Some? {
        NotDone(i, m, old(driver.batches));
        return;
      }
      MarkDone(i, m, old(driver.batches));
    }

    /** The builder got as far as its spec, and the chains after it have returned. */
    ghost predicate Returned(i: nat, m: Mutation, batches: seq<seq<Fields>>)
      requires Shape() && i < |builders|
      reads specs, nodes, driver, builders, m, set k | i <= k < |builders| :: builders[k].mutation, Touched(i)
    {
      && Finished(i + 1, batches) && Passes(run.schema, run.jobs[i])
      && m.fields == Candidate(run.jobs[i]) && builders[i].mutation == m && nodes[i] == Some(Node(m.fields, 0))
      && (m == origins[i] <==> run.Own(i))
      && m.done == (run.Own(i) && run.jobs[i].done) && (!run.Own(i) ==> origins[i].done == run.jobs[i].done)
      && (forall k :: i < k < |builders| ==> builders[k].mutation != m && origins[k] != m)
    }

    /** What the later chains left of builder `k` is also what all chains from `i` on leave of it. */
    lemma SettledFrom(i: nat, k: nat)
      requires Shape() && i < |builders| && k < |builders| && Passes(run.schema, run.jobs[i])
      ensures Settled(i, k) <==> Settled(i + 1, k)
    {
      run.GoesOn(i);
      hide HandAll, Candidate, Passes, Run.Reached, Run.BatchRuns, Run.Returns, Run.Id, Run.Own;
    }

    lemma AllSettledFrom(i: nat, next: nat)
      requires Shape() && next == i + 1 <= |builders| && Passes(run.schema, run.jobs[i])
      requires forall k :: i < k < |builders| ==> Settled(next, k)
      ensures forall k :: i < k < |builders| ==> Settled(i, k)
    {
      hide Settled, HandAll, Passes;
      forall k | i < k < |builders| ensures Settled(i, k) {
        SettledFrom(i, k);
      }
    }

    /** All that `Finished` says, but for the nodes and the mutation of builder `i`. */
    ghost predicate AlmostFinished(i: nat, batches: seq<seq<Fields>>)
      requires Shape() && i < |builders|
      reads specs, driver, set k | i < k < |builders| :: builders[k], set k | i < k < |builders| :: builders[k].mutation, Touched(i + 1)
    {
      && driver.batches == batches + (if run.BatchRuns(i) then [Candidates(run.jobs)] else [])
      && (forall k :: 0 <= k < |builders| ==>
            specs[k] == if run.Reached(i, k) then Some(Spec(Candidate(run.jobs[k]), run.Id(i, k))) else None)
      && (forall k :: i < k < |builders| ==> Settled(i, k))
    }

    lemma BeforeDone(i: nat, m: Mutation, batches: seq<seq<Fields>>)
      requires Shape() && i < |builders| && Returned(i, m, batches)
      ensures AlmostFinished(i, batches)
      ensures run.Reached(i, i) && specs[i] == Some(Spec(m.fields, run.Id(i, i)))
      ensures forall k :: i < k < |builders| ==> nodes[k] == run.ExpectedNode(i, k)
      ensures forall k :: i < k < |builders| ==> builders[k].mutation != m && origins[k] != m
      ensures builders[i].mutation == m && m.fields == Candidate(run.jobs[i]) && nodes[i] == Some(Node(m.fields, 0))
      ensures (m == origins[i] <==> run.Own(i)) && (!run.Own(i) ==> origins[i].done == run.jobs[i].done)
      ensures m.done == (run.Own(i) && run.jobs[i].done)
      ensures Passes(run.schema, run.jobs[i]) && |builders| == |run.jobs| == |origins| == nodes.Length == specs.Length
    {
      run.GoesOn(i);
      AllSettledFrom(i, i + 1);
      hide HandAll, Candidate, Candidates, Passes, Settled, Run.Reached, Run.BatchRuns, Run.Returns, Run.Id, Run.Own, Run.ExpectedNode;
    }

    method Mark(i: nat, m: Mutation)
      requires i < specs.Length == nodes.Length && specs[i].Some? && nodes[i].Some?
      modifies nodes, m
      ensures var id := if specs[i].value.id.Some? then specs[i].value.id.value else 0;
              m.id == Some(id) && nodes[i] == Some(old(nodes[i]).value.(id := id))
      ensures m.done && m.fields == old(m.fields)
      ensures forall k :: 0 <= k < nodes.Length && k != i ==> nodes[k] == old(nodes[k])
    {
      var id := 0;
      if specs[i].value.id.Some? {
        id := specs[i].value.id.value;
      }
      m.id := Some(id);
      nodes[i] := Some(nodes[i].value.(id := id));
      m.done := true;
    }

    method MarkDone(i: nat, m: Mutation, ghost batches: seq<seq<Fields>>)
      requires Shape() && i < |builders| && Returned(i, m, batches) && run.Returns(i + 1).None?
      modifies nodes, m
      ensures Finished(i, batches)
      ensures forall k :: 0 <= k < i ==> nodes[k] == old(nodes[k])
    {
      BeforeDone(i, m, batches);
      hide HandAll, Candidate, Candidates, Passes, Run.Reached, Run.BatchRuns, Run.Returns, Run.Id, Run.Own, Run.ExpectedNode, Finished, Returned, Settled, Touched, Shape;
      Mark(i, m);
      SettledNow(i, m);
      forall k | i < k < |builders| ensures Settled(i, k) {
        assert old(Settled(i, k)) && builders[k].mutation != m && origins[k] != m;
      }
      NowFinished(i, batches);
    }

    lemma NowFinished(i: nat, batches: seq<seq<Fields>>)
      requires Shape() && i < |builders| && AlmostFinished(i, batches) && Settled(i, i)
      requires nodes[i] == run.ExpectedNode(i, i)
      requires forall k :: i < k < |builders| ==> nodes[k] == run.ExpectedNode(i, k)
      ensures Finished(i, batches)
    {
      hide HandAll, Candidate, Candidates, Passes, Run.Reached, Run.BatchRuns, Run.Returns, Run.Id, Run.Own, Run.ExpectedNode, Settled;
    }

    lemma NotDone(i: nat, m: Mutation, batches: seq<seq<Fields>>)
      requires Shape() && i < |builders| && Returned(i, m, batches) && run.Returns(i + 1).Some?
      ensures Finished(i, batches)
    {
      BeforeDone(i, m, batches);
      hide HandAll, Candidate, Candidates, Passes, Run.Reached, Run.BatchRuns, Run.Returns, Run.Id, Run.Own, Run.ExpectedNode, Finished, AlmostFinished, Settled, Returned, Touched;
      SettledNow(i, m);
      NowFinished(i, batches);
    }

    lemma SettledNow(i: nat, m: Mutation)
      requires Shape() && i < |builders| && Passes(run.schema, run.jobs[i])
      requires builders[i].mutation == m && m.fields == Candidate(run.jobs[i])
      requires (m == origins[i] <==> run.Own(i)) && (!run.Own(i) ==> origins[i].done == run.jobs[i].done)
      requires m.done == ((run.Own(i) && run.jobs[i].done) || run.Returns(i + 1).None?)
      requires run.Returns(i + 1).None? ==> m.id == Some(run.NodeId(i, i))
      ensures Settled(i, i)
      ensures run.ExpectedNode(i, i) == Some(Node(m.fields, run.NodeId(i, i)))
    {
      run.GoesOn(i);
    }

    /** Fill the spec of builder `i`. */
    method Fill(i: nat, m: Mutation)
      requires i < |builders| && Ready(i, |builders[i].hooks|, m) && Passes(run.schema, run.jobs[i])
      modifies specs, nodes, builders[i]
      ensures Waiting(i + 1)
      ensures builders[i].mutation == m && nodes[i] == Some(Node(m.fields, 0))
      ensures forall k :: 0 <= k < i ==> nodes[k] == old(nodes[k])
    {
      hide Hand, HandAll, Candidate, Passes;
      PutsInSpec(run.jobs[i], Handed(origins[i].fields, m.fields, m == origins[i]));
      var builder := builders[i];
      builder.mutation := m;
      var node, spec := builder.CreateSpec();
      nodes[i], specs[i] := Some(node), Some(spec);
    }

    /** Run the chain of builder `i`, or the batch when there is none. */
    method GoOn(i: nat) returns (err: Option<SaveError>)
      requires Waiting(i)
      modifies specs, nodes, driver, Touched(i)
      ensures err == run.Returns(i)
      ensures Finished(i, old(driver.batches))
      ensures forall k :: 0 <= k < i ==> nodes[k] == old(nodes[k])
      ensures forall k :: i <= k < |builders| ==> builders[k].mutation == origins[k] || fresh(builders[k].mutation)
      decreases |builders| - i
    {
      hide Hand, Unwind, Outcome, HandAll, Candidate, Passes, Inner, Run.Reached, Run.BatchRuns, Run.Returns, Run.Id, Settled;
      if i < |builders| {
        NextChain(i);
        assert origins[i] in Touched(i);
        err := Mutate(i, 0, builders[i].mutation);
      } else {
        err := BatchCreate();
      }
    }

    lemma NextChain(i: nat)
      requires Shape() && i < |builders|
      ensures run.Returns(i) == Unwind(run.jobs[i].hooks, 0, Handed(run.jobs[i].fields, run.jobs[i].fields, true),
                                       Inner(run.schema, run.jobs[i], run.Returns(i + 1)))
      ensures HandAll(run.jobs[i]) == Hand(run.jobs[i].hooks, 0, Handed(run.jobs[i].fields, run.jobs[i].fields, true))
    {
    }

    /** One insertion of all specs; it either fails as a whole or gives every row its id. */
    method BatchCreate() returns (err: Option<SaveError>)
      requires Shape()
      requires forall k :: 0 <= k < |builders| ==> specs[k] == Some(Spec(Candidate(run.jobs[k]), None))
      modifies specs, driver
      ensures err == run.Returns(|builders|)
      ensures Finished(|builders|, old(driver.batches))
    {
      var rows := seq(specs.Length, k requires 0 <= k < specs.Length && specs[k].Some? reads specs => specs[k].value.fields);
      assert rows == Candidates(run.jobs);
      run.AtTheEnd();
      hide Run.Reached, Run.BatchRuns, Run.Id, Run.Returns;
      driver.batches := driver.batches + [rows];
      var ids := driver.insert(rows);
      if ids.Err? {
        return Some(BatchFailed(ids.error));
      }
      for n := 0 to specs.Length
        invariant driver.batches == old(driver.batches) + [rows]
        invariant forall k :: 0 <= k < |builders| ==>
          specs[k] == Some(Spec(Candidate(run.jobs[k]), if k < n then ids.value(k) else None))
      {
        specs[n] := Some(specs[n].value.(id := ids.value(n)));
      }
      assert |run.jobs| == |builders|;
      err := None;
    }
  }

  lemma LastHook(hooks: seq<Hook>, now: Handed, inner: Option<SaveError>)
    ensures Hand(hooks, |hooks|, now) == Ok(now) && Unwind(hooks, |hooks|, now, inner) == inner
  {
  }

  lemma PutsInSpec(job: Job, handed: Handed)
    requires HandAll(job) == Hand(job.hooks, |job.hooks|, handed)
    ensures Candidate(job) == handed.passed
  {
  }

  lemma LastIsOwn(job: Job, handed: Handed)
    requires HandAll(job) == Hand(job.hooks, |job.hooks|, handed)
    ensures HandAll(job) == Ok(handed)
  {
  }

  lemma HookStep(hooks: seq<Hook>, h: nat, now: Handed, inner: Option<SaveError>)
    requires h < |hooks|
    ensures match hooks[h].before(now.passed)
            case Err(m) => Hand(hooks, h, now) == Err(m) && Unwind(hooks, h, now, inner) == Some(Rejected(m))
            case Ok(edited) =>
              var checked := if now.own then edited else now.checked;
              var next := if hooks[h].substitute.None? then Handed(checked, edited, now.own)
                          else Handed(checked, hooks[h].substitute.value(edited), false);
              Hand(hooks, h, now) == Hand(hooks, h + 1, next) &&
              Unwind(hooks, h, now, inner) == hooks[h].After(Unwind(hooks, h + 1, next, inner))
  {
  }

  /** The builder of a bulk creation. */
  class AccountCreateBulk {
    const err: Option<string>
    const schema: Schema
    const builders: seq<Builder>
    const driver: Driver

    constructor (err: Option<string>, schema: Schema, builders: seq<Builder>, driver: Driver)
      ensures this.err == err && this.schema == schema && this.builders == builders && this.driver == driver
    {
      this.err, this.schema, this.builders, this.driver := err, schema, builders, driver;
    }

    /** Every builder is its own object with its own mutation, as the client creates them. */
    ghost predicate Valid()
      reads builders
    {
      && (forall j, k :: 0 <= j < k < |builders| ==> builders[j] != builders[k] && builders[j].mutation != builders[k].mutation)
      && forall k :: 0 <= k < |builders| ==> builders[k].schema == schema
    }

    ghost function Mutations(): seq<Mutation>
      reads builders
    {
      seq(|builders|, k requires 0 <= k < |builders| reads builders => builders[k].mutation)
    }

    /** The run that a call of `Save` in this state stands for. */
    ghost function Plan(): (run: Run)
      reads builders, Mutations()
      ensures |run.jobs| == |builders|
    {
      Run(schema,
          seq(|builders|, k requires 0 <= k < |builders| reads builders, Mutations() =>
                Job(WithDefaults(schema, 0, Mutations()[k].fields), Mutations()[k].done, builders[k].hooks)),
          driver.insert)
    }

    /** What the run leaves of the mutation of builder `k`. */
    ghost predicate Leaves(run: Run, k: nat)
      requires k < |builders| == |run.jobs|
      reads builders, builders[k].mutation
    {
      var m := builders[k].mutation;
      if run.Reached(0, k) then
        && m.fields == Candidate(run.jobs[k])
        && m.done == ((run.Own(k) && run.jobs[k].done) || run.Returns(k + 1).None?)
        && (run.Returns(k + 1).None? ==> m.id == Some(run.NodeId(0, k)))
      else m.done == run.jobs[k].done
    }

    /** Create the accounts.  The batch is inserted exactly when every builder passed, holds the rows
        in the order of the builders, and is inserted once; every mutation is done exactly when its
        mutator was reached and the chain after it succeeded, and then has the id of its row. */
    method Save() returns (r: Result<seq<Option<Node>>, SaveError>)
      requires Valid()
      modifies driver, builders, Mutations()
      ensures err.Some? ==> r == Err(BulkFailed(err.value)) && driver.batches == old(driver.batches) &&
                            forall k :: 0 <= k < |builders| ==> builders[k].mutation.done == old(builders[k].mutation.done)
      ensures err.None? && builders == [] ==> r == Ok([]) && driver.batches == old(driver.batches)
      ensures err.None? && builders != [] ==>
        var run := old(Plan());
        && driver.batches == old(driver.batches) + (if run.BatchRuns(0) then [Candidates(run.jobs)] else [])
        && (match run.Returns(0) case Some(e) => r == Err(e) case None => r.Ok? && |r.value| == |builders|)
        && forall k :: 0 <= k < |builders| ==>
             (r.Ok? ==> r.value[k] == run.ExpectedNode(0, k)) && Leaves(run, k)
    {
      if err.Some? {
        return Err(BulkFailed(err.value));
      }
      ghost var run := Plan();
      FillDefaults();
      if |builders| == 0 {
        return Ok([]);
      }
      r := RunChains(run);
    }

    /** Build the chains and call the first one. */
    method RunChains(ghost run: Run) returns (r: Result<seq<Option<Node>>, SaveError>)
      requires Valid() && 0 < |builders| == |run.jobs| && run.insert == driver.insert && run.schema == schema
      requires forall k :: 0 <= k < |builders| ==>
        run.jobs[k] == Job(builders[k].mutation.fields, builders[k].mutation.done, builders[k].hooks)
      modifies driver, builders, Mutations()
      ensures driver.batches == old(driver.batches) + (if run.BatchRuns(0) then [Candidates(run.jobs)] else [])
      ensures match run.Returns(0) case Some(e) => r == Err(e) case None => r.Ok? && |r.value| == |builders|
      ensures r.Ok? ==> forall k :: 0 <= k < |builders| ==> r.value[k] == run.ExpectedNode(0, k)
      ensures forall k :: 0 <= k < |builders| ==> Leaves(run, k)
    {
      hide Hand, Unwind, Outcome, HandAll, FirstFailure, Run.Reached, Run.BatchRuns, Run.Returns, Run.Id, Run.Own, Run.ExpectedNode, Candidate;
      ghost var origins := Mutations();
      var chain := new Chain(builders, driver, run, origins);
      chain.NextChain(0);
      assert chain.Shape();
      assert origins[0] in chain.Touched(0);
      var failure := chain.Mutate(0, 0, builders[0].mutation);
      forall k | 0 <= k < |builders| ensures Leaves(run, k) {
        assert chain.Settled(0, k);
      }
      if failure.Some? {
        return Err(failure.value);
      }
      r := Ok(chain.nodes[..]);
    }

    /** Set the defaults of every builder; what `Defaults` reports is dropped. */
    method FillDefaults()
      requires Valid()
      modifies Mutations()
      ensures forall k :: 0 <= k < |builders| ==>
        var m := builders[k].mutation;
        m.fields == WithDefaults(schema, 0, old(builders[k].mutation.fields)) && m.done == old(builders[k].mutation.done)
    {
      for i := 0 to |builders|
        invariant forall k :: 0 <= k < |builders| ==>
          var m := builders[k].mutation;
          && m.fields == (if k < i then WithDefaults(schema, 0, old(builders[k].mutation.fields)) else old(builders[k].mutation.fields))
          && m.done == old(builders[k].mutation.done)
      {
        assert builders[i].mutation == Mutations()[i];
        var dropped := builders[i].Defaults();
      }
    }
  }

  // ---------------------------------------------------------------- all or nothing

  /** Whether the chain of these hooks reports success, given whether its innermost mutator did. */
  predicate Reports(hooks: seq<Hook>, h: nat, success: bool)
    requires h <= |hooks|
    decreases |hooks| - h
  {
    if h == |hooks| then success
    else if Reports(hooks, h + 1, success) then hooks[h].raises.None?
    else hooks[h].swallows
  }

  /** The chain reports success exactly when its innermost mutator succeeded. */
  predicate KeepsVerdict(hooks: seq<Hook>) {
    Reports(hooks, 0, true) && !Reports(hooks, 0, false)
  }

  lemma {:induction false} UnwindReports(hooks: seq<Hook>, h: nat, now: Handed, inner: Option<SaveError>)
    requires h <= |hooks| && Hand(hooks, h, now).Ok?
    ensures Unwind(hooks, h, now, inner).None? <==> Reports(hooks, h, inner.None?)
    decreases |hooks| - h
  {
    if h < |hooks| {
      var edited := hooks[h].before(now.passed).value;
      var checked := if now.own then edited else now.checked;
      match hooks[h].substitute {
        case None => UnwindReports(hooks, h + 1, Handed(checked, edited, now.own), inner);
        case Some(other) => UnwindReports(hooks, h + 1, Handed(checked, other(edited), false), inner);
      }
    }
  }

  /** How many hooks stand outside the place where the chain stops: outside the hook that rejects, or
      all of them. */
  function Outside(hooks: seq<Hook>, h: nat, now: Handed): (d: nat)
    requires h <= |hooks|
    ensures h <= d <= |hooks|
    decreases |hooks| - h
  {
    if h == |hooks| then h else
    match hooks[h].before(now.passed)
    case Err(m) => h
    case Ok(edited) =>
      var checked := if now.own then edited else now.checked;
      match hooks[h].substitute
      case None => Outside(hooks, h + 1, Handed(checked, edited, now.own))
      case Some(other) => Outside(hooks, h + 1, Handed(checked, other(edited), false))
  }

  /** A rejection or a failed check comes out as success exactly when the hooks outside it turn it. */
  lemma {:induction false} StopReports(hooks: seq<Hook>, h: nat, now: Handed, inner: Option<SaveError>)
    requires h <= |hooks| && (Hand(hooks, h, now).Err? || inner.Some?)
    ensures Unwind(hooks, h, now, inner).None? <==> Reports(hooks[..Outside(hooks, h, now)], h, false)
    decreases |hooks| - h
  {
    if h < |hooks| && hooks[h].before(now.passed).Ok? {
      var edited := hooks[h].before(now.passed).value;
      var checked := if now.own then edited else now.checked;
      match hooks[h].substitute {
        case None => StopReports(hooks, h + 1, Handed(checked, edited, now.own), inner);
        case Some(other) => StopReports(hooks, h + 1, Handed(checked, other(edited), false), inner);
      }
    }
  }

  /** The mutation handed to the innermost mutator of builder `k` is marked done by the run. */
  predicate MarkedDone(run: Run, k: nat)
    requires k < |run.jobs|
  {
    run.Reached(0, k) && run.Returns(k + 1).None?
  }

  predicate Inserted(run: Run) {
    run.BatchRuns(0) && run.insert(Candidates(run.jobs)).Ok?
  }

  /** Either the save succeeds, the rows are in and every mutation is done; or it fails, no row is in
      and no mutation is done. */
  predicate AllOrNothing(run: Run) {
    if run.Returns(0).None? then Inserted(run) && forall k :: 0 <= k < |run.jobs| ==> MarkedDone(run, k)
    else !Inserted(run) && forall k :: 0 <= k < |run.jobs| ==> !MarkedDone(run, k)
  }

  /** The hooks of a job that the failure of its own chain passes on its way out. */
  function OuterHooks(job: Job): seq<Hook> {
    job.hooks[..Outside(job.hooks, 0, Handed(job.fields, job.fields, true))]
  }

  lemma ReturnsStep(run: Run, i: nat)
    requires i < |run.jobs|
    ensures Passes(run.schema, run.jobs[i]) ==> (run.Returns(i).None? <==> Reports(run.jobs[i].hooks, 0, run.Returns(i + 1).None?))
    ensures !Passes(run.schema, run.jobs[i]) ==> (run.Returns(i).None? <==> Reports(OuterHooks(run.jobs[i]), 0, false))
  {
    hide Unwind, Hand, Reports, Outside;
    var job := run.jobs[i];
    var now := Handed(job.fields, job.fields, true);
    var inner := Inner(run.schema, job, run.Returns(i + 1));
    assert run.Returns(i) == Unwind(job.hooks, 0, now, inner);
    if Passes(run.schema, job) {
      UnwindReports(job.hooks, 0, now, inner);
    } else {
      StopReports(job.hooks, 0, now, inner);
    }
  }

  /** When no builder from `i` on stops the run, every chain reports what the batch did. */
  lemma {:induction false} VerdictsAgree(run: Run, i: nat)
    requires i <= |run.jobs| && run.BatchRuns(i)
    requires forall k :: i <= k < |run.jobs| ==> KeepsVerdict(run.jobs[k].hooks)
    ensures forall k :: i <= k <= |run.jobs| ==> (run.Returns(k).None? <==> run.insert(Candidates(run.jobs)).Ok?)
    decreases |run.jobs| - i
  {
    run.AtTheEnd();
    hide Run.Returns, Reports, Passes;
    if i < |run.jobs| {
      VerdictsAgree(run, i + 1);
      ReturnsStep(run, i);
    }
  }

  /** When the failure of a chain comes out and no chain before turns it, all of them fail. */
  lemma {:induction false} FailureComesBack(run: Run, stop: nat, i: nat)
    requires i <= stop < |run.jobs| && run.Returns(stop).Some?
    requires forall k :: i <= k < stop ==> Passes(run.schema, run.jobs[k]) && !Reports(run.jobs[k].hooks, 0, false)
    ensures forall k :: i <= k <= stop ==> run.Returns(k).Some?
    decreases stop - i
  {
    hide Run.Returns, Passes, Reports;
    if i < stop {
      FailureComesBack(run, stop, i + 1);
      ReturnsStep(run, i);
    }
  }

  lemma {:induction false} NeverTurned(hooks: seq<Hook>, h: nat)
    requires h <= |hooks| && forall hook <- hooks :: !hook.swallows
    ensures !Reports(hooks, h, false)
    decreases |hooks| - h
  {
    if h < |hooks| {
      NeverTurned(hooks, h + 1);
    }
  }

  lemma {:induction false} NeverRaised(hooks: seq<Hook>, h: nat)
    requires h <= |hooks| && forall hook <- hooks :: hook.raises.None?
    ensures Reports(hooks, h, true)
    decreases |hooks| - h
  {
    if h < |hooks| {
      NeverRaised(hooks, h + 1);
    }
  }

  /** The first builder from `i` on that stops the run, or the number of builders. */
  function Stop(run: Run, i: nat): (stop: nat)
    requires i <= |run.jobs|
    ensures i <= stop <= |run.jobs|
    decreases |run.jobs| - i
  {
    if i == |run.jobs| || !Passes(run.schema, run.jobs[i]) then i else Stop(run, i + 1)
  }

  lemma {:induction false} StopIsFirst(run: Run, i: nat)
    requires i <= |run.jobs|
    ensures forall k :: i <= k < Stop(run, i) ==> Passes(run.schema, run.jobs[k])
    ensures Stop(run, i) < |run.jobs| ==> !Passes(run.schema, run.jobs[Stop(run, i)])
    decreases |run.jobs| - i
  {
    hide Passes;
    if i < |run.jobs| && Passes(run.schema, run.jobs[i]) {
      StopIsFirst(run, i + 1);
    }
  }

  /** The hooks keep the verdicts the run shows them: every chain before the stop reports failure when
      given failure, and so do the hooks outside the stop; without a stop every chain also reports
      success when given success. */
  predicate KeepVerdicts(run: Run) {
    var stop := Stop(run, 0);
    && (forall k :: 0 <= k < stop ==> !Reports(run.jobs[k].hooks, 0, false))
    && if stop < |run.jobs| then !Reports(OuterHooks(run.jobs[stop]), 0, false)
       else forall k :: 0 <= k < stop ==> Reports(run.jobs[k].hooks, 0, true)
  }

  predicate AllOrNothingWith(run: Run, insert: Insert) {
    AllOrNothing(run.(insert := insert))
  }

  lemma Reaches(run: Run)
    requires run.BatchRuns(0)
    ensures forall k :: 0 <= k < |run.jobs| ==> run.Reached(0, k)
  {
  }

  lemma {:induction false} KeptIfAllOrNothing(run: Run, k: nat)
    requires run.BatchRuns(0) && AllOrNothing(run) && k < |run.jobs|
    ensures Reports(run.jobs[k].hooks, 0, run.insert(Candidates(run.jobs)).Ok?) <==> run.insert(Candidates(run.jobs)).Ok?
  {
    Reaches(run);
    run.AtTheEnd();
    assert Passes(run.schema, run.jobs[k]);
    ReturnsStep(run, k);
    hide Run.Returns, Passes, Reports, Run.Reached, Run.BatchRuns;
    assert MarkedDone(run, k) <==> run.Returns(k + 1).None?;
    if k > 0 {
      assert MarkedDone(run, k - 1) <==> run.Returns(k).None?;
    }
  }

  lemma KeptVerdictsAreAllOrNothing(run: Run)
    requires run.BatchRuns(0) && forall k :: 0 <= k < |run.jobs| ==> KeepsVerdict(run.jobs[k].hooks)
    ensures AllOrNothing(run)
  {
    VerdictsAgree(run, 0);
    hide Run.Returns, Passes, Reports, KeepsVerdict;
    Reaches(run);
  }

  lemma UnstoppedRun(run: Run)
    requires run.BatchRuns(0)
    ensures (forall insert: Insert :: AllOrNothingWith(run, insert)) <==>
            forall k :: 0 <= k < |run.jobs| ==> KeepsVerdict(run.jobs[k].hooks)
  {
    hide Run.Returns, Passes, Reports, AllOrNothing;
    if forall k :: 0 <= k < |run.jobs| ==> KeepsVerdict(run.jobs[k].hooks) {
      forall insert: Insert ensures AllOrNothingWith(run, insert) {
        KeptVerdictsAreAllOrNothing(run.(insert := insert));
      }
    }
    if forall insert: Insert :: AllOrNothingWith(run, insert) {
      var good: Insert := (rows: seq<Fields>) => Ok((k: nat) => None);
      var bad: Insert := (rows: seq<Fields>) => Err("constraint failed");
      assert AllOrNothingWith(run, good) && AllOrNothingWith(run, bad);
      forall k | 0 <= k < |run.jobs| ensures KeepsVerdict(run.jobs[k].hooks) {
        KeptIfAllOrNothing(run.(insert := good), k);
        KeptIfAllOrNothing(run.(insert := bad), k);
      }
    }
  }

  /** A run that stops at a builder inserts nothing, so it is all or nothing exactly when every chain
      up to that builder fails. */
  lemma StoppedRun(run: Run, stop: nat)
    requires stop < |run.jobs| && !Passes(run.schema, run.jobs[stop])
    requires forall k :: 0 <= k < stop ==> Passes(run.schema, run.jobs[k])
    ensures AllOrNothing(run) <==>
            !Reports(OuterHooks(run.jobs[stop]), 0, false) &&
            forall k :: 0 <= k < stop ==> !Reports(run.jobs[k].hooks, 0, false)
  {
    hide Run.Returns, Passes, Reports, OuterHooks;
    ReturnsStep(run, stop);
    assert !run.BatchRuns(0);
    assert forall k :: 0 <= k < |run.jobs| ==> (run.Reached(0, k) <==> k < stop);
    if !Reports(OuterHooks(run.jobs[stop]), 0, false) && forall k :: 0 <= k < stop ==> !Reports(run.jobs[k].hooks, 0, false) {
      FailureComesBack(run, stop, 0);
    }
    if AllOrNothing(run) {
      forall k | 0 <= k <= stop ensures run.Returns(k).Some? {
        assert k > 0 ==> !MarkedDone(run, k - 1);
      }
      forall k | 0 <= k < stop ensures !Reports(run.jobs[k].hooks, 0, false) {
        ReturnsStep(run, k);
      }
    }
  }

  /** A save is all or nothing for every outcome of the batch if and only if the hooks keep the
      verdicts, whatever they edit or reject and whatever the checks say. */
  lemma AllOrNothingIffVerdictsKept(run: Run)
    ensures (forall insert: Insert :: AllOrNothingWith(run, insert)) <==> KeepVerdicts(run)
  {
    hide Run.Returns, Passes, Reports, AllOrNothing, OuterHooks, Stop;
    StopIsFirst(run, 0);
    var stop := Stop(run, 0);
    if stop == |run.jobs| {
      UnstoppedRun(run);
    } else {
      forall insert: Insert ensures AllOrNothingWith(run, insert) <==> KeepVerdicts(run) {
        StoppedRun(run.(insert := insert), stop);
      }
      assert AllOrNothingWith(run, run.insert) <==> KeepVerdicts(run);
    }
  }

  /** What a chain of hooks makes of an outcome on its way out: the innermost hook turns it first. */
  function ComesOut(hooks: seq<Hook>, outcome: Option<SaveError>): Option<SaveError> {
    if hooks == [] then outcome
    else ComesOut(hooks[..|hooks| - 1], hooks[|hooks| - 1].After(outcome))
  }

  lemma {:induction false} ComesOutLast(hooks: seq<Hook>, outcome: Option<SaveError>)
    requires hooks != []
    ensures ComesOut(hooks, outcome) == hooks[0].After(ComesOut(hooks[1..], outcome))
  {
    if |hooks| > 1 {
      var n := |hooks| - 1;
      assert hooks[1..][..n - 1] == hooks[..n][1..] && hooks[1..][n - 1] == hooks[n];
      ComesOutLast(hooks[..n], hooks[n].After(outcome));
    } else {
      assert hooks[..0] == [] && hooks[1..] == [];
    }
  }

  /** What one hook hands on: its edit of what it was given, or its own mutation. */
  function HandsOn(hook: Hook, fields: Fields): Result<Fields, string> {
    var edited :- hook.before(fields);
    Ok(if hook.substitute.Some? then hook.substitute.value(edited) else edited)
  }

  /** What reaches the next mutator after these hooks, the last one acting last. */
  function HandedOn(hooks: seq<Hook>, fields: Fields): Result<Fields, string> {
    if hooks == [] then Ok(fields) else
    var before :- HandedOn(hooks[..|hooks| - 1], fields);
    HandsOn(hooks[|hooks| - 1], before)
  }

  lemma {:induction false} HandedOnFirst(hooks: seq<Hook>, fields: Fields)
    requires hooks != []
    ensures HandedOn(hooks, fields) ==
            match HandsOn(hooks[0], fields) case Err(m) => Err(m) case Ok(next) => HandedOn(hooks[1..], next)
  {
    hide HandsOn;
    if |hooks| > 1 {
      var n := |hooks| - 1;
      assert hooks[1..][..n - 1] == hooks[..n][1..] && hooks[1..][n - 1] == hooks[n];
      HandedOnFirst(hooks[..n], fields);
    } else {
      assert hooks[..0] == [] && hooks[1..] == [];
    }
  }

  /** The chain is entered from the outside in and left from the inside out: the hooks act on the fields
      in order, the first rejection stops them, and the outcome passes the hooks outside in reverse. */
  lemma {:induction false} ChainInAndOut(hooks: seq<Hook>, h: nat, now: Handed, inner: Option<SaveError>)
    requires h <= |hooks|
    ensures var at := HandedOn(hooks[h..], now.passed);
            && (Hand(hooks, h, now).Ok? <==> at.Ok?)
            && (at.Ok? ==> Hand(hooks, h, now).value.passed == at.value && Unwind(hooks, h, now, inner) == ComesOut(hooks[h..], inner))
            && (at.Err? ==> var d := Outside(hooks, h, now);
                            && d < |hooks| && HandedOn(hooks[h..d], now.passed).Ok?
                            && hooks[d].before(HandedOn(hooks[h..d], now.passed).value) == Err(at.error)
                            && Unwind(hooks, h, now, inner) == ComesOut(hooks[h..d], Some(Rejected(at.error))))
    decreases |hooks| - h
  {
    var rest := hooks[h..];
    if h < |hooks| {
      HandedOnFirst(rest, now.passed);
      assert rest[1..] == hooks[h + 1..];
      ComesOutLast(rest, inner);
      hide ComesOut, HandedOn;
      if hooks[h].before(now.passed).Ok? {
        var edited := hooks[h].before(now.passed).value;
        var checked := if now.own then edited else now.checked;
        var next := match hooks[h].substitute
                    case None => Handed(checked, edited, now.own)
                    case Some(other) => Handed(checked, other(edited), false);
        ChainInAndOut(hooks, h + 1, next, inner);
        var d := Outside(hooks, h + 1, next);
        var at := HandedOn(hooks[h + 1..], next.passed);
        if at.Err? {
          var outer := hooks[h..d];
          assert outer[1..] == hooks[h + 1..d];
          HandedOnFirst(outer, now.passed);
          ComesOutLast(outer, Some(Rejected(at.error)));
        }
      } else {
        NothingComesOut(Some(Rejected(hooks[h].before(now.passed).error)));
        NothingHandedOn(now.passed);
        assert hooks[h..h] == [];
      }
    } else {
      assert rest == [];
    }
  }

  lemma NothingHandedOn(fields: Fields)
    ensures HandedOn([], fields) == Ok(fields)
  {
  }

  lemma NothingComesOut(outcome: Option<SaveError>)
    ensures ComesOut([], outcome) == outcome
  {
  }

  /** The check sees what the last hook made of the builder's own mutation: all edits up to the first hook
      that hands on another one, its own edit included. */
  lemma {:induction false} CheckedAtFirstSubstitute(hooks: seq<Hook>, h: nat, now: Handed, k: nat)
    requires h <= k <= |hooks| && now.own && now.checked == now.passed && Hand(hooks, h, now).Ok?
    requires forall j :: h <= j < k ==> hooks[j].substitute.None?
    requires k < |hooks| ==> hooks[k].substitute.Some?
    ensures var at := HandedOn(hooks[h..k], now.passed);
            && at.Ok? && (k < |hooks| ==> hooks[k].before(at.value).Ok?)
            && Hand(hooks, h, now).value.checked == (if k < |hooks| then hooks[k].before(at.value).value else at.value)
    decreases k - h
  {
    var edited := if h < |hooks| then hooks[h].before(now.passed).value else now.passed;
    if h == k {
      assert hooks[h..k] == [];
      if k < |hooks| {
        OthersAreNotChecked(hooks, h + 1, Handed(edited, hooks[k].substitute.value(edited), false));
      }
    } else {
      var rest := hooks[h..k];
      assert rest[1..] == hooks[h + 1..k];
      HandedOnFirst(rest, now.passed);
      CheckedAtFirstSubstitute(hooks, h + 1, Handed(edited, edited, true), k);
    }
  }

  lemma {:induction false} OthersAreNotChecked(hooks: seq<Hook>, h: nat, now: Handed)
    requires h <= |hooks| && !now.own && Hand(hooks, h, now).Ok?
    ensures Hand(hooks, h, now).value.checked == now.checked
    decreases |hooks| - h
  {
    if h < |hooks| {
      var edited := hooks[h].before(now.passed).value;
      match hooks[h].substitute {
        case None => OthersAreNotChecked(hooks, h + 1, Handed(now.checked, edited, false));
        case Some(other) => OthersAreNotChecked(hooks, h + 1, Handed(now.checked, other(edited), false));
      }
    }
  }

  /** The hooks pass outcomes on as they are. */
  ghost predicate Faithful(hooks: seq<Hook>) {
    forall hook <- hooks :: !hook.swallows && hook.raises.None?
  }

  lemma {:induction false} FaithfulComesOut(hooks: seq<Hook>, outcome: Option<SaveError>)
    requires Faithful(hooks)
    ensures ComesOut(hooks, outcome) == outcome
  {
    if hooks != [] {
      var last := hooks[|hooks| - 1];
      assert last in hooks && last.After(outcome) == outcome;
      FaithfulComesOut(hooks[..|hooks| - 1], outcome);
    }
  }

  /** How the chain of one builder is stopped: by the rejection of a hook, or by the first broken rule. */
  function StopError(schema: Schema, job: Job): Option<SaveError> {
    match HandedOn(job.hooks, job.fields)
    case Err(m) => Some(Rejected(m))
    case Ok(_) => if HandAll(job).Ok? then FirstFailure(schema, 0, HandAll(job).value.checked) else None
  }

  lemma ChainReturns(run: Run, i: nat)
    requires i < |run.jobs| && Faithful(run.jobs[i].hooks)
    ensures Passes(run.schema, run.jobs[i]) <==> StopError(run.schema, run.jobs[i]).None?
    ensures run.Returns(i) ==
            if StopError(run.schema, run.jobs[i]).Some? then StopError(run.schema, run.jobs[i]) else run.Returns(i + 1)
  {
    hide Unwind, Hand, ComesOut, HandedOn, Outside, FirstFailure;
    var job := run.jobs[i];
    var now := Handed(job.fields, job.fields, true);
    var inner := Inner(run.schema, job, run.Returns(i + 1));
    assert run.Returns(i) == Unwind(job.hooks, 0, now, inner);
    ChainInAndOut(job.hooks, 0, now, inner);
    assert job.hooks[0..] == job.hooks;
    FaithfulComesOut(job.hooks, inner);
    var outer := job.hooks[0..Outside(job.hooks, 0, now)];
    assert forall hook <- outer :: hook in job.hooks;
    if HandedOn(job.hooks, now.passed).Err? {
      FaithfulComesOut(outer, Some(Rejected(HandedOn(job.hooks, now.passed).error)));
    }
  }

  /** With hooks that pass outcomes on, a save returns the error of the first builder that is stopped, and
      that of the insertion when none is. */
  lemma {:induction false} FaithfulSaveReturns(run: Run, i: nat)
    requires i <= |run.jobs| && forall job <- run.jobs :: Faithful(job.hooks)
    ensures var stop := Stop(run, i);
            && (forall k :: i <= k < stop ==> StopError(run.schema, run.jobs[k]).None?)
            && if stop < |run.jobs| then run.Returns(i) == StopError(run.schema, run.jobs[stop]) && run.Returns(i).Some?
               else match run.insert(Candidates(run.jobs))
                    case Ok(_) => run.Returns(i).None?
                    case Err(m) => run.Returns(i) == Some(BatchFailed(m))
    decreases |run.jobs| - i
  {
    hide StopError, Passes, Run.Returns, Faithful;
    if i < |run.jobs| {
      assert run.jobs[i] in run.jobs;
      ChainReturns(run, i);
      if Passes(run.schema, run.jobs[i]) {
        FaithfulSaveReturns(run, i + 1);
      }
    } else {
      run.AtTheEnd();
    }
  }

  /** The row of a builder holds what its hooks handed on. */
  lemma RowIsHandedOn(job: Job)
    ensures HandAll(job).Ok? <==> HandedOn(job.hooks, job.fields).Ok?
    ensures HandAll(job).Ok? ==> Candidate(job) == HandedOn(job.hooks, job.fields).value
  {
    hide Hand, HandedOn, Unwind, ComesOut;
    ChainInAndOut(job.hooks, 0, Handed(job.fields, job.fields, true), None);
    assert job.hooks[0..] == job.hooks;
  }

  /** After a save that hooks did not disturb, every node has the fields its hooks handed on and the id that
      the insertion gave its row, or 0 when it gave none. */
  lemma FaithfulSaveGivesIds(run: Run, k: nat)
    requires k < |run.jobs| && (forall job <- run.jobs :: Faithful(job.hooks))
    requires run.BatchRuns(0) && run.insert(Candidates(run.jobs)).Ok?
    ensures HandedOn(run.jobs[k].hooks, run.jobs[k].fields).Ok?
    ensures var id := run.insert(Candidates(run.jobs)).value(k);
            run.ExpectedNode(0, k) ==
            Some(Node(HandedOn(run.jobs[k].hooks, run.jobs[k].fields).value, if id.Some? then id.value else 0))
  {
    RowIsHandedOn(run.jobs[k]);
    FaithfulSaveReturns(run, k + 1);
    StopIsFirst(run, k + 1);
    assert Passes(run.schema, run.jobs[k]);
    hide Run.Returns, HandedOn, Faithful, FirstFailure, Hand, StopError;
    assert Stop(run, k + 1) == |run.jobs|;
    assert run.Returns(k + 1).None?;
  }

  /** In particular, hooks that pass outcomes on make every save all or nothing. */
  lemma FaithfulHooksAreAllOrNothing(run: Run)
    requires forall job <- run.jobs, hook <- job.hooks :: !hook.swallows && hook.raises.None?
    ensures AllOrNothing(run)
  {
    hide Run.Returns, Passes, Reports, AllOrNothing;
    forall k | 0 <= k < |run.jobs|
      ensures !Reports(run.jobs[k].hooks, 0, false) && Reports(run.jobs[k].hooks, 0, true)
      ensures !Reports(OuterHooks(run.jobs[k]), 0, false)
    {
      assert run.jobs[k] in run.jobs;
      assert forall hook <- OuterHooks(run.jobs[k]) :: hook in run.jobs[k].hooks;
      NeverTurned(run.jobs[k].hooks, 0);
      NeverRaised(run.jobs[k].hooks, 0);
      NeverTurned(OuterHooks(run.jobs[k]), 0);
    }
    AllOrNothingIffVerdictsKept(run);
    assert AllOrNothingWith(run, run.insert);
    assert run.(insert := run.insert) == run;
  }

  /** Whatever the schema and the fields that pass it, a hook that swallows errors makes the save
      succeed although the batch failed and nothing was inserted. */
  lemma SwallowedErrorReportsSuccess(schema: Schema, fields: Fields, message: string)
    requires FirstFailure(schema, 0, fields).None?
    ensures var hook := Hook(f => Ok(f), None, None, true);
            var run := Run(schema, [Job(fields, false, [hook])], rows => Err(message));
            run.Returns(0).None? && run.BatchRuns(0) && !Inserted(run) && !MarkedDone(run, 0)
  {
    var hook := Hook(f => Ok(f), None, None, true);
    var run := Run(schema, [Job(fields, false, [hook])], rows => Err(message));
    hide FirstFailure;
    assert Hand([hook], 0, Handed(fields, fields, true)) == Hand([hook], 1, Handed(fields, fields, true));
    assert Passes(schema, run.jobs[0]);
    run.AtTheEnd();
    ReturnsStep(run, 0);
    assert Reports([hook], 0, false);
  }

  /** The same with a builder that fails its check: the save succeeds and there is no batch at all. */
  lemma SwallowedCheckReportsSuccess(schema: Schema, fields: Fields, insert: Insert)
    requires FirstFailure(schema, 0, fields).Some?
    ensures var hook := Hook(f => Ok(f), None, None, true);
            var run := Run(schema, [Job(fields, false, [hook])], insert);
            run.Returns(0).None? && !run.BatchRuns(0) && !AllOrNothing(run)
  {
    var hook := Hook(f => Ok(f), None, None, true);
    var run := Run(schema, [Job(fields, false, [hook])], insert);
    hide FirstFailure;
    assert Hand([hook], 0, Handed(fields, fields, true)) == Hand([hook], 1, Handed(fields, fields, true));
    assert !Passes(schema, run.jobs[0]);
    assert Outside([hook], 0, Handed(fields, fields, true)) == Outside([hook], 1, Handed(fields, fields, true)) == 1;
    assert OuterHooks(run.jobs[0]) == [hook];
    ReturnsStep(run, 0);
    assert Reports([hook], 0, false);
  }

  // ---------------------------------------------------------------- what the batch holds

  lemma {:induction false} OwnIsChecked(hooks: seq<Hook>, h: nat, now: Handed)
    requires h <= |hooks| && (now.own ==> now.checked == now.passed)
    ensures Hand(hooks, h, now).Ok? && Hand(hooks, h, now).value.own ==>
              Hand(hooks, h, now).value.checked == Hand(hooks, h, now).value.passed
    decreases |hooks| - h
  {
    if h < |hooks| && hooks[h].before(now.passed).Ok? {
      var edited := hooks[h].before(now.passed).value;
      var checked := if now.own then edited else now.checked;
      match hooks[h].substitute {
        case None => OwnIsChecked(hooks, h + 1, Handed(checked, edited, now.own));
        case Some(other) => OwnIsChecked(hooks, h + 1, Handed(checked, other(edited), false));
      }
    }
  }

  lemma {:induction false} NoSubstituteIsOwn(hooks: seq<Hook>, h: nat, now: Handed)
    requires h <= |hooks| && now.own && forall hook <- hooks :: hook.substitute.None?
    ensures Hand(hooks, h, now).Ok? ==> Hand(hooks, h, now).value.own
    decreases |hooks| - h
  {
    if h < |hooks| && hooks[h].before(now.passed).Ok? {
      assert hooks[h] in hooks;
      var edited := hooks[h].before(now.passed).value;
      NoSubstituteIsOwn(hooks, h + 1, Handed(edited, edited, true));
    }
  }

  function HandFrom(hooks: seq<Hook>, fields: Fields): Result<Handed, string> {
    HandAll(Job(fields, false, hooks))
  }

  /** Whatever builder these hooks are on, a row it inserts keeps the rules it was checked against. */
  ghost predicate GuardRows(hooks: seq<Hook>) {
    forall schema: Schema, fields: Fields :: RowGuarded(schema, Job(fields, false, hooks))
  }

  predicate RowGuarded(schema: Schema, job: Job) {
    Passes(schema, job) ==> Checked(schema, Candidate(job))
  }

  /** Whatever fields these hooks start from, they hand on the very fields that are checked. */
  ghost predicate HandOnChecked(hooks: seq<Hook>) {
    forall fields: Fields :: HandFrom(hooks, fields).Ok? ==>
      HandFrom(hooks, fields).value.checked == HandFrom(hooks, fields).value.passed
  }

  /** The check runs on the builder's mutation before the one handed on replaces it, so it guards the
      inserted rows if and only if the hooks hand on, from all fields they let through, the fields
      that are checked. */
  lemma HooksGuardRowsIff(hooks: seq<Hook>)
    ensures GuardRows(hooks) <==> HandOnChecked(hooks)
  {
    hide Hand, FirstFailure, Checked;
    if HandOnChecked(hooks) {
      forall schema: Schema, fields: Fields ensures RowGuarded(schema, Job(fields, false, hooks)) {
        assert HandFrom(hooks, fields) == HandAll(Job(fields, false, hooks));
        CheckedRow(schema, Job(fields, false, hooks));
      }
    }
    if GuardRows(hooks) {
      forall fields: Fields | HandFrom(hooks, fields).Ok?
        ensures HandFrom(hooks, fields).value.checked == HandFrom(hooks, fields).value.passed
      {
        if HandFrom(hooks, fields).value.checked != HandFrom(hooks, fields).value.passed {
          var schema := UnguardedSchema(hooks, fields);
        }
      }
    }
  }

  lemma NoFailureIsChecked(schema: Schema, fields: Fields)
    ensures FirstFailure(schema, 0, fields).None? <==> Checked(schema, fields)
  {
    NoFailureIffChecked(schema, 0, fields);
    hide FirstFailure;
  }

  lemma CheckedRow(schema: Schema, job: Job)
    requires Passes(schema, job) ==> HandAll(job).value.checked == HandAll(job).value.passed
    ensures RowGuarded(schema, job)
  {
    hide Hand, FirstFailure, Checked;
    NoFailureIsChecked(schema, Candidate(job));
  }

  /** Two different sets of fields are told apart by some schema that the first one keeps. */
  lemma TellingSchema(checked: Fields, passed: Fields) returns (schema: Schema)
    requires checked != passed
    ensures Checked(schema, checked) && !Checked(schema, passed)
  {
    if name :| name in checked && name !in passed {
      schema := Schema([Rule(name, true, false)], (n, v) => true, [], map[]);
      assert schema.rules[0] in schema.rules && !schema.Meets(schema.rules[0], passed);
    } else {
      var name :| name in passed && (name !in checked || checked[name] != passed[name]);
      schema := Schema([Rule(name, false, true)], (n, v) => !(n == name && v == passed[name]), [], map[]);
      assert schema.rules[0] in schema.rules && !schema.Meets(schema.rules[0], passed);
    }
  }

  lemma UnguardedSchema(hooks: seq<Hook>, fields: Fields) returns (schema: Schema)
    requires HandFrom(hooks, fields).Ok? && HandFrom(hooks, fields).value.checked != HandFrom(hooks, fields).value.passed
    ensures !RowGuarded(schema, Job(fields, false, hooks))
  {
    hide Hand, FirstFailure, Checked;
    var handed := HandFrom(hooks, fields).value;
    schema := TellingSchema(handed.checked, handed.passed);
    NoFailureIsChecked(schema, handed.checked);
  }

  /** Hooks that never hand on another mutation hand on the fields that are checked. */
  lemma WithoutSubstituteHandOnChecked(hooks: seq<Hook>)
    requires forall hook <- hooks :: hook.substitute.None?
    ensures HandOnChecked(hooks)
  {
    hide Hand;
    forall fields: Fields | HandFrom(hooks, fields).Ok?
      ensures HandFrom(hooks, fields).value.checked == HandFrom(hooks, fields).value.passed
    {
      OwnIsChecked(hooks, 0, Handed(fields, fields, true));
      NoSubstituteIsOwn(hooks, 0, Handed(fields, fields, true));
    }
  }

  /** With hooks that hand on what is checked, every row of a batch keeps all rules of the schema. */
  lemma BatchIsChecked(run: Run)
    requires run.BatchRuns(0)
    requires forall job <- run.jobs :: HandOnChecked(job.hooks)
    ensures forall row <- Candidates(run.jobs) :: Checked(run.schema, row)
  {
    hide Hand, FirstFailure, Checked, HandOnChecked;
    forall k | 0 <= k < |run.jobs| ensures Checked(run.schema, Candidate(run.jobs[k])) {
      var job := run.jobs[k];
      assert job in run.jobs && Passes(run.schema, job);
      HooksGuardRowsIff(job.hooks);
      assert RowGuarded(run.schema, Job(job.fields, false, job.hooks));
    }
  }

  /** Whatever the fields that pass, a hook that hands on an empty mutation gets a row without the
      required ones into the batch, and the save succeeds with that row when the batch does. */
  lemma SubstitutedMutationEvadesCheck(schema: Schema, fields: Fields, insert: Insert)
    requires FirstFailure(schema, 0, fields).None? && exists rule <- schema.rules :: rule.required
    ensures var hook := Hook(f => Ok(f), Some(f => map[]), None, false);
            var run := Run(schema, [Job(fields, false, [hook])], insert);
            && run.BatchRuns(0) && Candidates(run.jobs) == [map[]] && !Checked(schema, map[])
            && (insert([map[]]).Ok? ==> run.Returns(0).None? && Inserted(run))
  {
    var hook := Hook(f => Ok(f), Some(f => map[]), None, false);
    var run := Run(schema, [Job(fields, false, [hook])], insert);
    hide FirstFailure;
    assert Hand([hook], 0, Handed(fields, fields, true)) == Hand([hook], 1, Handed(fields, map[], false));
    assert Passes(schema, run.jobs[0]);
    var rule :| rule in schema.rules && rule.required;
    assert !schema.Meets(rule, map[]);
    assert run.Returns(1) == BatchError(insert, [map[]]);
  }

  /** `Save` drops what `defaults` reports, but a required field left without a default still fails
      the check, unless a hook sets it. */
  lemma MissingDefaultIsCaught(schema: Schema, fields: Fields, rule: Rule)
    requires rule in schema.rules && rule.required && rule.name !in fields && rule.name !in schema.defaults
    ensures FirstFailure(schema, 0, WithDefaults(schema, 0, fields)).Some?
  {
    hide FirstFailure, WithDefaults;
    DefaultsOnlyAdd(schema, 0, fields);
    NoFailureIffChecked(schema, 0, WithDefaults(schema, 0, fields));
    assert !schema.Meets(rule, WithDefaults(schema, 0, fields));
  }

  /** The required account fields without a default. */
  const CALLER_FIELDS: set<string> := {"name", "platform", "type"}

  lemma AccountFieldsAreCovered(rule: Rule)
    requires rule in ACCOUNT_RULES && rule.required
    ensures rule.name in CALLER_FIELDS || rule.name in DEFAULTED
  {
    var i :| 0 <= i < |ACCOUNT_RULES| && ACCOUNT_RULES[i] == rule;
    assert DEFAULTED[0] == "created_at" && DEFAULTED[1] == "updated_at" && DEFAULTED[2] == "credentials";
    assert DEFAULTED[3] == "extra" && DEFAULTED[4] == "concurrency" && DEFAULTED[5] == "priority";
    assert DEFAULTED[6] == "rate_multiplier" && DEFAULTED[7] == "status" && DEFAULTED[8] == "auto_pause_on_expired";
    assert DEFAULTED[9] == "schedulable" && DEFAULTED[10] == "quota_dimension";
  }

  /** After defaults, an account passes the check exactly when name, platform and type were given and
      every validated field is valid. */
  lemma AccountCheckAfterDefaults(schema: Schema, fields: Fields)
    requires schema.rules == ACCOUNT_RULES && schema.defaulted == DEFAULTED
    requires forall name <- DEFAULTED :: name in schema.defaults
    requires forall name <- CALLER_FIELDS :: name !in schema.defaults
    ensures var filled := WithDefaults(schema, 0, fields);
            FirstFailure(schema, 0, filled).None? <==>
            CALLER_FIELDS <= fields.Keys &&
            forall rule <- ACCOUNT_RULES :: rule.validated && rule.name in filled ==> schema.valid(rule.name, filled[rule.name])
  {
    hide FirstFailure, WithDefaults, ACCOUNT_RULES, DEFAULTED;
    var filled := WithDefaults(schema, 0, fields);
    DefaultsOnlyAdd(schema, 0, fields);
    NoFailureIffChecked(schema, 0, filled);
    forall rule | rule in schema.rules && rule.required ensures rule.name in filled <==> rule.name in CALLER_FIELDS ==> rule.name in fields {
      AccountFieldsAreCovered(rule);
    }
    forall name | name in CALLER_FIELDS && FirstFailure(schema, 0, filled).None? ensures name in fields {
      var rule := CallerFieldIsRequired(name);
      assert schema.Meets(rule, filled);
    }
  }

  /** So an account that was given name, platform and type, all fields valid, can be saved as a row of
      no fields at all. */
  lemma EmptyAccountEvadesCheck(schema: Schema, fields: Fields, insert: Insert)
    requires schema.rules == ACCOUNT_RULES && schema.defaulted == DEFAULTED
    requires forall name <- DEFAULTED :: name in schema.defaults
    requires forall name <- CALLER_FIELDS :: name !in schema.defaults
    requires CALLER_FIELDS <= fields.Keys && insert([map[]]).Ok?
    requires var filled := WithDefaults(schema, 0, fields);
             forall rule <- ACCOUNT_RULES :: rule.validated && rule.name in filled ==> schema.valid(rule.name, filled[rule.name])
    ensures var hook := Hook(f => Ok(f), Some(f => map[]), None, false);
            var run := Run(schema, [Job(WithDefaults(schema, 0, fields), false, [hook])], insert);
            run.Returns(0).None? && Inserted(run) && Candidates(run.jobs) == [map[]] && !Checked(schema, map[])
  {
    hide FirstFailure, WithDefaults, Checked, DEFAULTED, ACCOUNT_RULES;
    AccountCheckAfterDefaults(schema, fields);
    var rule := CallerFieldIsRequired("name");
    SubstitutedMutationEvadesCheck(schema, WithDefaults(schema, 0, fields), insert);
  }

  lemma CallerFieldIsRequired(name: string) returns (rule: Rule)
    requires name in CALLER_FIELDS
    ensures rule in ACCOUNT_RULES && rule.required && rule.name == name
  {
    rule := Rule(name, true, true);
    assert ACCOUNT_RULES[2].name == "name" && ACCOUNT_RULES[3].name == "platform" && ACCOUNT_RULES[4].name == "type";
  }
}

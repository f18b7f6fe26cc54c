/** The Gatekeeper constraint sync: audit results become compliance events, each sent once. */
module Gatekeeper {
  import opened Text
  import opened EventCodec

  datatype Key = Key(policy: string, kind: string, name: string)

  /** What the cache has been told about: an event sent, a message seen in the policy status, a key dropped. */
  datatype Act = Sent(key: Key, msg: string, compliance: Compliance) | Observed(key: Key) | Forgotten(key: Key)

  /** One entry of status.violations: not an object, without a name or namespace that is a string, or as expected. */
  datatype Violation =
    | Malformed
    | Mistyped
    | Violation(namespace: Option<string>, name: string, action: string, message: string, kind: string)

  /** How far the lookup of a constraint gets, and what the audit says. */
  datatype Audit =
    | LookupFails
    | NotThere
    | InvalidStatus
    | Audited(violations: seq<Violation>)

  datatype Webhook = Enabled | Disabled | WebhookUnknown

  /** The field spec.enforcementAction of a constraint. */
  datatype ActionField = NoAction | NotAString | Action(value: string)

  datatype Template =
    | OtherTemplate
    | Constraint(kind: string, name: string, audit: Audit, action: ActionField, webhook: Webhook, sendOk: bool)

  /** getEnforcementAction: a constraint denies unless it says otherwise; an invalid field counts as not denying. */
  function EnforcementAction(a: ActionField): string {
    match a
    case NoAction => "deny"
    case NotAString => ""
    case Action(value) => value
  }

  const INVALID := "The constraint status is invalid"
  const NO_VIOLATIONS := "The constraint has no violations"
  const WEBHOOK_OFF :=
    "The Gatekeeper validating webhook is disabled but the constraint's spec.enforcementAction is deny. "

  // ---------------------------------------------------------------- messages

  function ViolationText(v: Violation): string
    requires v.Violation?
  {
    var name := if v.namespace.Some? then v.namespace.value + "/" + v.name else v.name;
    v.action + " - " + v.message + " (on " + v.kind + " " + name + ")"
  }

  function AddViolation(msg: string, v: Violation): string {
    if !v.Violation? then msg else (if msg == "" then "" else msg + "; ") + ViolationText(v)
  }

  function ViolationsText(vs: seq<Violation>): string {
    if vs == [] then "" else AddViolation(ViolationsText(vs[..|vs| - 1]), vs[|vs| - 1])
  }

  /** The loop over the violations; None when it panics, which happens at the first mistyped one. */
  method BuildMessage(vs: seq<Violation>) returns (msg: Option<string>)
    ensures msg == if Mistyped in vs then None else Some(ViolationsText(vs))
  {
    var text := "";
    for i := 0 to |vs|
      invariant Mistyped !in vs[..i] && text == ViolationsText(vs[..i])
    {
      assert vs[..i + 1][..i] == vs[..i];
      if vs[i].Mistyped? {
        return None;
      }
      text := AddViolation(text, vs[i]);
    }
    assert vs[..|vs|] == vs;
    msg := Some(text);
  }

  predicate Panics(t: Template) {
    t.Constraint? && t.audit.Audited? && Mistyped in t.audit.violations
  }

  /** The text and compliance of the event for a constraint, None when there is nothing to report yet. */
  function Report(t: Template): Option<(string, Compliance)> {
    if t.OtherTemplate? || t.audit.LookupFails? || t.audit.NotThere? || Panics(t) then None
    else
      var msg := if t.audit.InvalidStatus? then INVALID
                 else if t.audit.violations == [] then NO_VIOLATIONS else ViolationsText(t.audit.violations);
      var compliance := if t.audit.Audited? && t.audit.violations == [] then Compliant else NonCompliant;
      if EnforcementAction(t.action) == "deny" && t.webhook.Disabled? then Some((WEBHOOK_OFF + msg, NonCompliant))
      else Some((msg, compliance))
  }

  lemma {:induction false} ViolationsEnd(vs: seq<Violation>)
    ensures ViolationsText(vs) == "" || ViolationsText(vs)[|ViolationsText(vs)| - 1] == ')'
  {
    if vs != [] { ViolationsEnd(vs[..|vs| - 1]); }
  }

  /**
   * The text alone identifies the event: of all the texts that can be built, exactly one is compliant, so a cache
   * of texts never confuses two compliance states.
   */
  lemma TextDeterminesCompliance(t: Template, u: Template)
    requires Report(t).Some? && Report(u).Some? && Report(t).value.0 == Report(u).value.0
    ensures Report(t).value.1 == Report(u).value.1
  {
    CompliantText(t);
    CompliantText(u);
  }

  lemma CompliantText(t: Template)
    requires Report(t).Some?
    ensures Report(t).value.1 == Compliant <==> Report(t).value.0 == NO_VIOLATIONS
    ensures Report(t).value.1 == Compliant || Report(t).value.1 == NonCompliant
  {
    var last := |NO_VIOLATIONS| - 1;
    assert NO_VIOLATIONS[last] == 's' && INVALID[|INVALID| - 1] == 'd';
    assert |WEBHOOK_OFF| > |NO_VIOLATIONS|;
    if t.audit.Audited? { ViolationsEnd(t.audit.violations); }
  }

  // ---------------------------------------------------------------- the cache

  /** The cache of sent messages, with SHA-1 taken as injective, and all that has happened to it. */
  datatype Memory = Memory(cache: map<Key, string>, trace: seq<Act>)

  function Store(m: Memory, key: Key, msg: string, c: Compliance): Memory {
    Memory(m.cache[key := msg], m.trace + [Sent(key, msg, c)])
  }

  function Saw(m: Memory, key: Key): Memory {
    Memory(m.cache - {key}, m.trace + [Observed(key)])
  }

  datatype Result = Result(memory: Memory, ok: bool)

  /** sendComplianceEvent; `first` is the newest message in the refreshed status of the template, if any. */
  function SendCompliance(m: Memory, policy: string, t: Template, first: Option<string>): Result
    requires t.Constraint? && Report(t).Some?
  {
    var (msg, c) := Report(t).value;
    var key := Key(policy, t.kind, t.name);
    if EnforcementAction(t.action) == "deny" && t.webhook.WebhookUnknown? then Result(m, false)
    else if first == Some(ComplianceMessage(c, msg)) then Result(Saw(m, key), true)
    else if key in m.cache && m.cache[key] == msg then Result(m, true)
    else if !t.sendOk then Result(m, false)
    else Result(Store(m, key, msg, c), true)
  }

  function SyncOne(m: Memory, policy: string, t: Template, first: Option<string>): Result {
    if t.OtherTemplate? then Result(m, true)
    else if t.audit.LookupFails? || Panics(t) then Result(m, false)
    else if Report(t).None? then Result(m, true)
    else SendCompliance(m, policy, t, first)
  }

  /** The templates up to n; it stops at the first error. */
  function SyncTo(m: Memory, policy: string, templates: seq<Template>, firsts: seq<Option<string>>, n: nat): Result
    requires n <= |templates| == |firsts|
  {
    if n == 0 then Result(m, true)
    else
      var r := SyncTo(m, policy, templates, firsts, n - 1);
      if !r.ok then r else SyncOne(r.memory, policy, templates[n - 1], firsts[n - 1])
  }

  function KeysOf(policy: string, templates: seq<Template>): set<Key> {
    set i | 0 <= i < |templates| && templates[i].Constraint? :: Key(policy, templates[i].kind, templates[i].name)
  }

  /** The cached keys of a policy, apart from those to keep. */
  function Stale(m: Memory, policy: string, keep: set<Key>): set<Key> {
    set key | key in m.cache && key.policy == policy && key !in keep
  }

  /** A cache without these keys, each one reported as forgotten, in some order. */
  ghost predicate ForgotExactly(m: Memory, after: Memory, keys: set<Key>) {
    && after.cache == m.cache - keys
    && m.trace <= after.trace
    && (forall i :: |m.trace| <= i < |after.trace| ==> after.trace[i].Forgotten? && after.trace[i].key in keys)
    && (forall key :: key in keys ==> Forgotten(key) in after.trace[|m.trace|..])
  }

  class ConstraintReconciler {
    var lastSentMessages: map<Key, string>
    ghost var trace: seq<Act>

    constructor ()
      ensures View() == Memory(map[], [])
    {
      lastSentMessages := map[];
      trace := [];
    }

    ghost function View(): Memory
      reads this
    {
      Memory(lastSentMessages, trace)
    }

    method SendComplianceEvent(policy: string, t: Template, first: Option<string>) returns (ok: bool)
      requires t.Constraint? && Report(t).Some?
      modifies this
      ensures Result(View(), ok) == SendCompliance(old(View()), policy, t, first)
    {
      var msg, compliance := Report(t).value.0, Report(t).value.1;
      if EnforcementAction(t.action) == "deny" && t.webhook.WebhookUnknown? {
        return false;
      }
      var kn := Key(policy, t.kind, t.name);
      if first != Some(ComplianceMessage(compliance, msg)) {
        if kn in lastSentMessages && lastSentMessages[kn] == msg {
          return true;
        }
        if !t.sendOk {
          return false;
        }
        lastSentMessages := lastSentMessages[kn := msg];
        trace := trace + [Sent(kn, msg, compliance)];
      } else {
        lastSentMessages := lastSentMessages - {kn};
        trace := trace + [Observed(kn)];
      }
      ok := true;
    }

    /** Drop the cached messages of the policy that no constraint of it needs any more. */
    method Clean(policy: string, keep: set<Key>)
      modifies this
      ensures ForgotExactly(old(View()), View(), Stale(old(View()), policy, keep))
    {
      var gone := Stale(Memory(lastSentMessages, []), policy, keep);
      var todo, cache := gone, lastSentMessages;
      ghost var acts: seq<Act> := [];
      while todo != {}
        invariant todo <= gone && cache == lastSentMessages - (gone - todo)
        invariant forall i :: 0 <= i < |acts| ==> acts[i].Forgotten? && acts[i].key in gone
        invariant forall key :: key in gone && key !in todo ==> Forgotten(key) in acts
        decreases |todo|
      {
        var key :| key in todo;
        todo := todo - {key};
        cache := cache - {key};
        acts := acts + [Forgotten(key)];
      }
      lastSentMessages := cache;
      trace := trace + acts;
      assert trace[|old(trace)|..] == acts;
      assert gone - {} == gone;
    }

    /** Reconcile: `found` is false when the policy was deleted. */
    method Reconcile(policy: string, found: bool, templates: seq<Template>, firsts: seq<Option<string>>)
      returns (ok: bool)
      requires |templates| == |firsts|
      modifies this
      ensures !found ==> ForgotExactly(old(View()), View(), Stale(old(View()), policy, {}))
      ensures found ==>
        var r := SyncTo(old(View()), policy, templates, firsts, |templates|);
        && ok == r.ok
        && (!ok ==> View() == r.memory)
        && (ok ==> ForgotExactly(r.memory, View(), Stale(r.memory, policy, KeysOf(policy, templates))))
    {
      hide Report, ForgotExactly;
      if !found {
        Clean(policy, {});
        return true;
      }
      for i := 0 to |templates|
        invariant SyncTo(old(View()), policy, templates, firsts, i) == Result(View(), true)
      {
        var t := templates[i];
        if t.Constraint? {
          if t.audit.LookupFails? || Panics(t) {
            StopsAt(old(View()), policy, templates, firsts, i + 1, |templates|);
            return false;
          }
          if Report(t).Some? {
            var sent := SendComplianceEvent(policy, t, firsts[i]);
            if !sent {
              StopsAt(old(View()), policy, templates, firsts, i + 1, |templates|);
              return false;
            }
          }
        }
      }
      Clean(policy, KeysOf(policy, templates));
      ok := true;
    }
  }

  lemma {:induction false} StopsAt(
    m: Memory, policy: string, templates: seq<Template>, firsts: seq<Option<string>>, i: nat, n: nat)
    requires i <= n <= |templates| == |firsts| && !SyncTo(m, policy, templates, firsts, i).ok
    ensures SyncTo(m, policy, templates, firsts, n) == SyncTo(m, policy, templates, firsts, i)
    decreases n
  {
    hide SyncOne;
    if i < n { StopsAt(m, policy, templates, firsts, i, n - 1); }
  }

  // ---------------------------------------------------------------- no event is sent twice in a row

  /** The message last sent for a key, if nothing has cleared it since. */
  function Pending(trace: seq<Act>, key: Key): Option<string> {
    if trace == [] then None
    else
      var last := trace[|trace| - 1];
      if last.key != key then Pending(trace[..|trace| - 1], key)
      else if last.Sent? then Some(last.msg) else None
  }

  /** The cache holds what the trace says, and no event in it repeats the one pending before it. */
  ghost predicate Faithful(m: Memory) {
    && (forall key :: Pending(m.trace, key) == if key in m.cache then Some(m.cache[key]) else None)
    && (forall j :: 0 <= j < |m.trace| && m.trace[j].Sent? ==>
          Pending(m.trace[..j], m.trace[j].key) != Some(m.trace[j].msg))
  }

  lemma FaithfulStep(m: Memory, act: Act, cache: map<Key, string>)
    requires Faithful(m)
    requires act.Sent? ==> cache == m.cache[act.key := act.msg] && !(act.key in m.cache && m.cache[act.key] == act.msg)
    requires !act.Sent? ==> cache == m.cache - {act.key}
    ensures Faithful(Memory(cache, m.trace + [act]))
  {
    var trace := m.trace + [act];
    assert trace[..|trace| - 1] == m.trace;
    forall key ensures Pending(trace, key) == if key in cache then Some(cache[key]) else None {
      assert Pending(m.trace, key) == if key in m.cache then Some(m.cache[key]) else None;
    }
    forall j | 0 <= j < |trace| && trace[j].Sent? ensures Pending(trace[..j], trace[j].key) != Some(trace[j].msg) {
      if j < |m.trace| {
        assert trace[..j] == m.trace[..j] && trace[j] == m.trace[j];
      } else {
        assert trace[..j] == m.trace;
      }
    }
  }

  lemma {:induction false} SyncToFaithful(
    m: Memory, policy: string, templates: seq<Template>, firsts: seq<Option<string>>, n: nat)
    requires n <= |templates| == |firsts| && Faithful(m)
    ensures Faithful(SyncTo(m, policy, templates, firsts, n).memory)
    decreases n
  {
    hide Report, Faithful;
    if n > 0 {
      SyncToFaithful(m, policy, templates, firsts, n - 1);
      var r := SyncTo(m, policy, templates, firsts, n - 1);
      var t := templates[n - 1];
      if r.ok && t.Constraint? && Report(t).Some? {
        var (msg, c) := Report(t).value;
        var key := Key(policy, t.kind, t.name);
        FaithfulStep(r.memory, Observed(key), r.memory.cache - {key});
        if !(key in r.memory.cache && r.memory.cache[key] == msg) {
          FaithfulStep(r.memory, Sent(key, msg, c), r.memory.cache[key := msg]);
        }
      }
    }
  }

  /** The keys of the acts in a part of a trace. */
  function ActKeys(trace: seq<Act>, begin: nat, end: nat): set<Key>
    requires begin <= end <= |trace|
  {
    if begin == end then {} else ActKeys(trace, begin, end - 1) + {trace[end - 1].key}
  }

  lemma {:induction false} ActKeysHold(trace: seq<Act>, begin: nat, end: nat, i: nat)
    requires begin <= i < end <= |trace|
    ensures trace[i].key in ActKeys(trace, begin, end)
    decreases end
  {
    if i < end - 1 { ActKeysHold(trace, begin, end - 1, i); }
  }

  lemma {:induction false} ForgettingFaithful(m: Memory, after: Memory, keys: set<Key>)
    requires Faithful(m) && ForgotExactly(m, after, keys)
    ensures Faithful(after)
  {
    var n := |after.trace|;
    ForgetPrefix(m, after, keys, n);
    assert after.trace[..n] == after.trace;
    var tail := after.trace[|m.trace|..];
    forall key | key in keys ensures key in ActKeys(after.trace, |m.trace|, n) {
      assert Forgotten(key) in tail;
      var i :| 0 <= i < |tail| && tail[i] == Forgotten(key);
      ActKeysHold(after.trace, |m.trace|, n, |m.trace| + i);
    }
    assert m.cache - ActKeys(after.trace, |m.trace|, n) == after.cache;
  }

  lemma {:induction false} ForgetPrefix(m: Memory, after: Memory, keys: set<Key>, n: nat)
    requires Faithful(m) && ForgotExactly(m, after, keys) && |m.trace| <= n <= |after.trace|
    ensures Faithful(Memory(m.cache - ActKeys(after.trace, |m.trace|, n), after.trace[..n]))
    ensures ActKeys(after.trace, |m.trace|, n) <= keys
    decreases n
  {
    hide Faithful;
    if n == |m.trace| {
      assert after.trace[..n] == m.trace;
      assert m.cache - {} == m.cache;
      assert Memory(m.cache - {}, after.trace[..n]) == m;
    } else {
      ForgetPrefix(m, after, keys, n - 1);
      var act := after.trace[n - 1];
      var before, now := ActKeys(after.trace, |m.trace|, n - 1), ActKeys(after.trace, |m.trace|, n);
      assert m.cache - now == (m.cache - before) - {act.key};
      assert after.trace[..n] == after.trace[..n - 1] + [act];
      FaithfulStep(Memory(m.cache - before, after.trace[..n - 1]), act, m.cache - now);
    }
  }

  /** One reconcile as its contract describes it. */
  ghost predicate Step(m: Memory, after: Memory) {
    || (exists policy, templates, firsts :: |templates| == |firsts| && Reconciles(m, after, policy, templates, firsts))
    || (exists policy :: ForgotExactly(m, after, Stale(m, policy, {})))
  }

  ghost predicate Reconciles(
    m: Memory, after: Memory, policy: string, templates: seq<Template>, firsts: seq<Option<string>>)
    requires |templates| == |firsts|
  {
    var r := SyncTo(m, policy, templates, firsts, |templates|);
    if !r.ok then after == r.memory
    else ForgotExactly(r.memory, after, Stale(r.memory, policy, KeysOf(policy, templates)))
  }

  lemma StepFaithful(m: Memory, after: Memory)
    requires Faithful(m) && Step(m, after)
    ensures Faithful(after)
  {
    hide SyncTo, Faithful, KeysOf, ForgotExactly, Stale;
    if policy :| ForgotExactly(m, after, Stale(m, policy, {})) {
      ForgettingFaithful(m, after, Stale(m, policy, {}));
    } else {
      var policy, templates, firsts :| |templates| == |firsts| && Reconciles(m, after, policy, templates, firsts);
      var r := SyncTo(m, policy, templates, firsts, |templates|);
      SyncToFaithful(m, policy, templates, firsts, |templates|);
      if r.ok {
        ForgettingFaithful(r.memory, after, Stale(r.memory, policy, KeysOf(policy, templates)));
      }
    }
  }

  ghost predicate Run(run: seq<Memory>) {
    run != [] && run[0] == Memory(map[], []) && forall i :: 0 <= i < |run| - 1 ==> Step(run[i], run[i + 1])
  }

  lemma {:induction false} RunFaithful(run: seq<Memory>)
    requires Run(run)
    ensures Faithful(run[|run| - 1])
  {
    hide Step;
    if |run| > 1 {
      var front := run[..|run| - 1];
      assert forall i :: 0 <= i < |front| ==> front[i] == run[i];
      RunFaithful(front);
      StepFaithful(run[|run| - 2], run[|run| - 1]);
    }
  }

  /** Something after i clears the message sent at i before position j is reached. */
  lemma {:induction false} StillPending(trace: seq<Act>, i: nat, j: nat)
    requires i < j <= |trace| && trace[i].Sent?
    requires forall l :: i < l < j && trace[l].key == trace[i].key ==> trace[l].Sent? && trace[l].msg == trace[i].msg
    ensures Pending(trace[..j], trace[i].key) == Some(trace[i].msg)
    decreases j
  {
    var prefix := trace[..j];
    assert prefix[..|prefix| - 1] == trace[..j - 1] && prefix[|prefix| - 1] == trace[j - 1];
    if i < j - 1 {
      if trace[j - 1].key != trace[i].key {
        StillPending(trace, i, j - 1);
      }
    }
  }

  /** The event at l takes the message sent at i off the record. */
  ghost predicate Clears(trace: seq<Act>, i: nat, l: nat)
    requires i < |trace| && l < |trace| && trace[i].Sent?
  {
    trace[l].key == trace[i].key && (trace[l].Sent? ==> trace[l].msg != trace[i].msg)
  }

  /**
   * Over every run, between two sends of one message for one constraint there is a send of another message, a
   * call that found its message first in the policy status, or the removal of the key.
   */
  lemma NoRepeatWithoutCause(run: seq<Memory>, i: nat, j: nat)
    requires Run(run)
    requires
      var trace := run[|run| - 1].trace;
      && i < j < |trace| && trace[i].Sent? && trace[j].Sent?
      && trace[i].key == trace[j].key && trace[i].msg == trace[j].msg
    ensures
      var trace := run[|run| - 1].trace;
      exists l :: i < l < j && Clears(trace, i, l)
  {
    RunFaithful(run);
    var trace := run[|run| - 1].trace;
    assert Pending(trace[..j], trace[j].key) != Some(trace[j].msg);
    if forall l :: i < l < j ==> !Clears(trace, i, l) {
      forall l | i < l < j && trace[l].key == trace[i].key
        ensures trace[l].Sent? && trace[l].msg == trace[i].msg
      {
        assert !Clears(trace, i, l);
      }
      StillPending(trace, i, j);
    }
  }
}

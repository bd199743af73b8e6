/** The validator the data layer reports to. A validator holds a map from a
    field key to one error message; `Check(ok, key, message)` records
    `message` under `key` when `ok` is false and `key` has no error yet. A
    validation function is a fixed sequence of such checks, so it is modelled
    by the list of `Rule`s it checks and the fold `Apply` over that list. */
module Validation {
  import opened Records

  /** One `v.Check(ok, key, message)` call. */
  datatype Rule = Rule(ok: bool, key: string, message: string)

  /** The format checks whose definitions are not part of this model:
      `Matches(s, PhoneRX)`, `Matches(s, EmailRX)` and `ValidWebsite(s)`. */
  datatype Formats = Formats(phone: Text -> bool, email: Text -> bool, website: Text -> bool)

  /** `Unique`: no value occurs twice. */
  predicate Unique(values: seq<Text>) {
    forall i, j :: 0 <= i < j < |values| ==> values[i] != values[j]
  }

  /** The effect of one check on the error map. */
  function Step(errors: map<string, string>, r: Rule): map<string, string> {
    if r.ok || r.key in errors then errors else errors[r.key := r.message]
  }

  /** The effect of a sequence of checks, in order. */
  function Apply(errors: map<string, string>, rules: seq<Rule>): map<string, string>
    decreases |rules|
  {
    if rules == [] then errors else Apply(Step(errors, rules[0]), rules[1..])
  }

  /** The keys of the checks that fail. */
  function FailedKeys(rules: seq<Rule>): set<string> {
    set i | 0 <= i < |rules| && !rules[i].ok :: rules[i].key
  }

  lemma FailedKeysConcat(a: seq<Rule>, b: seq<Rule>)
    ensures FailedKeys(a + b) == FailedKeys(a) + FailedKeys(b)
  {
    forall k | k in FailedKeys(a) ensures k in FailedKeys(a + b) {
      var i :| 0 <= i < |a| && !a[i].ok && a[i].key == k;
      assert (a + b)[i] == a[i];
    }
    forall k | k in FailedKeys(a + b) ensures k in FailedKeys(a) + FailedKeys(b) {
      var i :| 0 <= i < |a + b| && !(a + b)[i].ok && (a + b)[i].key == k;
      if i >= |a| { assert b[i - |a|] == (a + b)[i]; }
    }
    forall k | k in FailedKeys(b) ensures k in FailedKeys(a + b) {
      var i :| 0 <= i < |b| && !b[i].ok && b[i].key == k;
      assert (a + b)[|a| + i] == b[i];
    }
  }

  /** Checks never remove or overwrite an error: the keys afterwards are the
      keys before plus those of the failing checks. */
  lemma {:induction false} ApplyKeys(errors: map<string, string>, rules: seq<Rule>)
    ensures Apply(errors, rules).Keys == errors.Keys + FailedKeys(rules)
    ensures forall k :: k in errors ==> Apply(errors, rules)[k] == errors[k]
    decreases |rules|
  {
    if rules != [] {
      ApplyKeys(Step(errors, rules[0]), rules[1..]);
      assert rules == [rules[0]] + rules[1..];
      FailedKeysConcat([rules[0]], rules[1..]);
    }
  }

  /** A key with no error yet gets the message of its first failing check. */
  lemma {:induction false} ApplyFirstMessage(errors: map<string, string>, rules: seq<Rule>, j: nat)
    requires j < |rules| && !rules[j].ok && rules[j].key !in errors
    requires forall i :: 0 <= i < j ==> rules[i].ok || rules[i].key != rules[j].key
    ensures rules[j].key in Apply(errors, rules)
    ensures Apply(errors, rules)[rules[j].key] == rules[j].message
    decreases j
  {
    if j == 0 {
      ApplyKeys(Step(errors, rules[0]), rules[1..]);
    } else {
      ApplyFirstMessage(Step(errors, rules[0]), rules[1..], j - 1);
    }
  }

  /** When no check fails, the error map is left as it was. */
  lemma ApplyNoFailures(errors: map<string, string>, rules: seq<Rule>)
    requires FailedKeys(rules) == {}
    ensures Apply(errors, rules) == errors
  {
    ApplyKeys(errors, rules);
  }

  /** Checking one list after another is checking their concatenation. */
  lemma {:induction false} ApplyConcat(errors: map<string, string>, a: seq<Rule>, b: seq<Rule>)
    ensures Apply(errors, a + b) == Apply(Apply(errors, a), b)
    decreases |a|
  {
    if a == [] {
      assert a + b == b;
    } else {
      assert (a + b)[1..] == a[1..] + b;
      ApplyConcat(Step(errors, a[0]), a[1..], b);
    }
  }

  lemma ApplyPair(errors: map<string, string>, r0: Rule, r1: Rule)
    ensures Apply(errors, [r0, r1]) == Step(Step(errors, r0), r1)
  {
    assert [r0, r1][1..] == [r1];
    assert [r1][1..] == [];
    assert Apply(Step(errors, r0), [r1]) == Apply(Step(Step(errors, r0), r1), []);
  }

  lemma ApplyFour(errors: map<string, string>, g: seq<Rule>)
    requires |g| == 4
    ensures Apply(errors, g) == Step(Step(Step(Step(errors, g[0]), g[1]), g[2]), g[3])
  {
    assert g == [g[0], g[1]] + [g[2], g[3]];
    ApplyConcat(errors, [g[0], g[1]], [g[2], g[3]]);
    ApplyPair(errors, g[0], g[1]);
    ApplyPair(Apply(errors, [g[0], g[1]]), g[2], g[3]);
  }

  /** Two check lists that agree on every condition and key, and on every
      message except those under `key`, record the same keys and the same
      messages everywhere except under `key`. */
  lemma {:induction false} ApplyAgreesOffKey(
    e1: map<string, string>, e2: map<string, string>, a: seq<Rule>, b: seq<Rule>, key: string)
    requires |a| == |b|
    requires forall i :: 0 <= i < |a| ==> a[i].ok == b[i].ok && a[i].key == b[i].key
    requires forall i :: 0 <= i < |a| && a[i].key != key ==> a[i].message == b[i].message
    requires e1.Keys == e2.Keys
    requires forall k :: k in e1 && k != key ==> e1[k] == e2[k]
    ensures Apply(e1, a).Keys == Apply(e2, b).Keys
    ensures forall k :: k in Apply(e1, a) && k != key ==> Apply(e1, a)[k] == Apply(e2, b)[k]
    decreases |a|
  {
    if a != [] {
      ApplyAgreesOffKey(Step(e1, a[0]), Step(e2, b[0]), a[1..], b[1..], key);
    }
  }

  /** `validator.Validator`: the errors recorded so far. */
  class Validator {
    var errors: map<string, string>

    /** `validator.New()`. */
    constructor ()
      ensures errors == map[]
    {
      errors := map[];
    }

    /** `Valid()`: no error has been recorded. */
    predicate Valid()
      reads this
      ensures Valid() <==> errors == map[]
    {
      |errors| == 0
    }

    /** `AddError`: the first message recorded for a key is kept. */
    method AddError(key: string, message: string)
      modifies this
      ensures key in errors && errors[key] == (if key in old(errors) then old(errors)[key] else message)
      ensures errors == old(errors)[key := errors[key]]
    {
      if key !in errors {
        errors := errors[key := message];
      }
    }

    /** `Check`: add an error for `key` when `ok` is false. */
    method Check(ok: bool, key: string, message: string)
      modifies this
      ensures errors == Step(old(errors), Rule(ok, key, message))
    {
      if !ok {
        AddError(key, message);
      }
    }
  }
}

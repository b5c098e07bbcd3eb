/** The subset of the zod schema library the request schemas use: an object
    of string fields, each field a chain of `.email()`, `.trim()`, `.min()`
    and `.max()` steps run in declaration order.

    What the model keeps of zod's behaviour:
    - an absent key reports the field's `required_error`; any other
      non-string value (a number, a boolean, `null`, an object) reports its
      `invalid_type_error`, and no later step of that field runs;
    - `.trim()` replaces the value at its own position in the chain, so a
      step declared before it sees the raw string and one declared after it
      sees the trimmed string;
    - a failing step does not stop the chain: every issue of every field is
      collected, fields in declaration order, steps in declaration order;
    - the parsed output holds exactly the declared keys, each mapped to the
      field's final string; undeclared keys of the input are dropped. */
module Zod {
  import opened Basics
  import opened JsString

  /** A JSON value as far as a string schema can tell them apart. */
  datatype JsValue = Str(text: string) | NonString

  /** A request body: a JSON object. */
  type Body = map<string, JsValue>

  /** One step of a string chain. The email format test is a parameter of
      parsing (zod's regular expression is not modelled). */
  datatype Check =
    | EmailFormat(message: string)
    | TrimStep
    | MinLength(bound: nat, message: string)
    | MaxLength(bound: nat, message: string)

  /** `key: z.string({required_error, invalid_type_error}).<checks>` */
  datatype Field = Field(key: string, requiredError: string, invalidTypeError: string, checks: seq<Check>)

  /** `z.object({...})`: its fields in declaration order. */
  type Schema = seq<Field>

  /** Issues one field raised, in order, and the string the chain produced. */
  datatype Parsed = Parsed(issues: seq<string>, value: string)

  /** Issues one step raises on the string it sees. */
  function StepIssues(c: Check, s: string, emailOk: string -> bool): seq<string> {
    match c
    case EmailFormat(m) => if emailOk(s) then [] else [m]
    case TrimStep => []
    case MinLength(n, m) => if Utf16Length(s) < n then [m] else []
    case MaxLength(n, m) => if Utf16Length(s) > n then [m] else []
  }

  /** The string the next step sees: only `.trim()` changes it. */
  function StepValue(c: Check, s: string): string {
    if c.TrimStep? then Trim(s) else s
  }

  /** Runs a chain on a string. The produced value is the trimmed input as
      soon as the chain trims anywhere, however often. */
  function RunChecks(checks: seq<Check>, s: string, emailOk: string -> bool): (r: Parsed)
    ensures r.value == (if TrimStep in checks then Trim(s) else s)
    ensures |r.issues| <= |checks|
  {
    if |checks| == 0 then Parsed([], s)
    else
      var r := RunChecks(checks[1..], StepValue(checks[0], s), emailOk);
      assert checks == [checks[0]] + checks[1..];
      TrimIdempotent(s);
      Parsed(StepIssues(checks[0], s, emailOk) + r.issues, r.value)
  }

  /** Unfolding step of `RunChecks`: one step of the chain, then the rest
      on the string that step passes on. */
  lemma RunChecksStep(checks: seq<Check>, s: string, emailOk: string -> bool)
    requires |checks| > 0
    ensures RunChecks(checks, s, emailOk).issues == StepIssues(checks[0], s, emailOk) + RunChecks(checks[1..], StepValue(checks[0], s), emailOk).issues
  {
  }

  function Lookup(body: Body, key: string): Option<JsValue> {
    if key in body then Some(body[key]) else None
  }

  /** Parses one field's value; `None` is an absent key. */
  function ParseField(f: Field, v: Option<JsValue>, emailOk: string -> bool): (r: Parsed)
    ensures v.None? ==> r.issues == [f.requiredError]
    ensures v == Some(NonString) ==> r.issues == [f.invalidTypeError]
  {
    match v
    case None => Parsed([f.requiredError], "")
    case Some(NonString) => Parsed([f.invalidTypeError], "")
    case Some(Str(s)) => RunChecks(f.checks, s, emailOk)
  }

  function FieldIssues(f: Field, body: Body, emailOk: string -> bool): seq<string> {
    ParseField(f, Lookup(body, f.key), emailOk).issues
  }

  function FieldValue(f: Field, body: Body, emailOk: string -> bool): string {
    ParseField(f, Lookup(body, f.key), emailOk).value
  }

  /** Every issue of the object, field by field in declaration order. */
  function AllIssues(schema: Schema, body: Body, emailOk: string -> bool): (r: seq<string>)
    ensures r == [] <==> forall i :: 0 <= i < |schema| ==> FieldIssues(schema[i], body, emailOk) == []
  {
    if |schema| == 0 then []
    else
      var r := FieldIssues(schema[0], body, emailOk) + AllIssues(schema[1..], body, emailOk);
      assert forall i :: 1 <= i < |schema| ==> schema[i] == schema[1..][i - 1];
      r
  }

  /** The declared keys of a schema. */
  function Keys(schema: Schema): (r: set<string>)
    ensures forall i :: 0 <= i < |schema| ==> schema[i].key in r
    ensures forall x :: x in r ==> exists i :: 0 <= i < |schema| && schema[i].key == x
  {
    if |schema| == 0 then {}
    else
      var r := {schema[0].key} + Keys(schema[1..]);
      assert forall i :: 1 <= i < |schema| ==> schema[i] == schema[1..][i - 1];
      forall x | x in r ensures exists i :: 0 <= i < |schema| && schema[i].key == x {
        if x != schema[0].key {
          var i :| 0 <= i < |schema[1..]| && schema[1..][i].key == x;
          assert schema[i + 1].key == x;
        }
      }
      r
  }

  predicate DistinctKeys(schema: Schema) {
    forall i, j :: 0 <= i < j < |schema| ==> schema[i].key != schema[j].key
  }

  /** The parsed object: each declared key mapped to its field's value. */
  function Output(schema: Schema, body: Body, emailOk: string -> bool): (out: Body)
    ensures out.Keys == Keys(schema)
  {
    if |schema| == 0 then map[]
    else Output(schema[1..], body, emailOk)[schema[0].key := Str(FieldValue(schema[0], body, emailOk))]
  }

  /** With distinct keys, every field's value lands under its own key. */
  lemma {:induction false} OutputValues(schema: Schema, body: Body, emailOk: string -> bool)
    ensures DistinctKeys(schema) ==> forall i :: 0 <= i < |schema| ==>
      Output(schema, body, emailOk)[schema[i].key] == Str(FieldValue(schema[i], body, emailOk))
  {
    if |schema| > 0 && DistinctKeys(schema) {
      var tail := schema[1..];
      assert DistinctKeys(tail) by {
        forall i, j | 0 <= i < j < |tail| ensures tail[i].key != tail[j].key {
          assert tail[i] == schema[i + 1] && tail[j] == schema[j + 1];
        }
      }
      OutputValues(tail, body, emailOk);
      var out := Output(schema, body, emailOk);
      forall i | 1 <= i < |schema| ensures out[schema[i].key] == Str(FieldValue(schema[i], body, emailOk)) {
        assert schema[i] == tail[i - 1];
        assert schema[i].key != schema[0].key;
      }
    }
  }

  /** `schema.parseAsync(body)`: the parsed object, or every issue in order. */
  function Parse(schema: Schema, body: Body, emailOk: string -> bool): (r: Result<Body, seq<string>>)
    ensures r.Failure? ==> |r.error| > 0
    ensures r.Success? <==> forall i :: 0 <= i < |schema| ==> FieldIssues(schema[i], body, emailOk) == []
    ensures r.Success? ==> r.value.Keys == Keys(schema)
    ensures r.Success? && DistinctKeys(schema) ==>
      forall i :: 0 <= i < |schema| ==> r.value[schema[i].key] == Str(FieldValue(schema[i], body, emailOk))
  {
    var issues := AllIssues(schema, body, emailOk);
    if issues == [] then
      OutputValues(schema, body, emailOk);
      Success(Output(schema, body, emailOk))
    else Failure(issues)
  }

  /** The string a body holds under `key`, or the empty string. */
  function Text(body: Body, key: string): string {
    if key in body && body[key].Str? then body[key].text else ""
  }

  /** When every field trims, an accepted object maps each declared key to
      the trimmed string the body held there. */
  lemma TrimmedOutput(schema: Schema, body: Body, emailOk: string -> bool)
    requires DistinctKeys(schema)
    requires forall i :: 0 <= i < |schema| ==> TrimStep in schema[i].checks
    requires Parse(schema, body, emailOk).Success?
    ensures forall k :: k in Parse(schema, body, emailOk).value ==>
      Parse(schema, body, emailOk).value[k] == Str(Trim(Text(body, k)))
  {
    var out := Parse(schema, body, emailOk).value;
    forall k | k in out ensures out[k] == Str(Trim(Text(body, k))) {
      var i :| 0 <= i < |schema| && schema[i].key == k;
      assert FieldIssues(schema[i], body, emailOk) == [];
    }
  }

  /** The first issue zod reports is the first issue of the earliest-declared
      field that has one. */
  lemma {:induction false} FirstIssueIsEarliest(schema: Schema, body: Body, emailOk: string -> bool)
    requires Parse(schema, body, emailOk).Failure?
    ensures exists k ::
              && 0 <= k < |schema|
              && (forall j :: 0 <= j < k ==> FieldIssues(schema[j], body, emailOk) == [])
              && FieldIssues(schema[k], body, emailOk) != []
              && Parse(schema, body, emailOk).error[0] == FieldIssues(schema[k], body, emailOk)[0]
  {
    var first := FieldIssues(schema[0], body, emailOk);
    if first == [] {
      var tail := schema[1..];
      assert AllIssues(schema, body, emailOk) == AllIssues(tail, body, emailOk);
      FirstIssueIsEarliest(tail, body, emailOk);
      var k :| 0 <= k < |tail|
        && (forall j :: 0 <= j < k ==> FieldIssues(tail[j], body, emailOk) == [])
        && FieldIssues(tail[k], body, emailOk) != []
        && Parse(tail, body, emailOk).error[0] == FieldIssues(tail[k], body, emailOk)[0];
      assert schema[k + 1] == tail[k];
      assert forall j :: 1 <= j < k + 1 ==> schema[j] == tail[j - 1];
    } else {
      assert AllIssues(schema, body, emailOk)[0] == first[0];
    }
  }

  /** Shape of every non-email field: trim, then a lower and an upper bound. */
  predicate TrimmedBounded(f: Field, lo: nat, hi: nat, tooShort: string, tooLong: string) {
    f.checks == [TrimStep, MinLength(lo, tooShort), MaxLength(hi, tooLong)]
  }

  /** A chain of three steps, unrolled: each step sees what the one before
      passed on. */
  lemma RunThree(a: Check, b: Check, d: Check, s: string, emailOk: string -> bool)
    ensures RunChecks([a, b, d], s, emailOk).issues
         == StepIssues(a, s, emailOk) + StepIssues(b, StepValue(a, s), emailOk)
          + StepIssues(d, StepValue(b, StepValue(a, s)), emailOk)
  {
    assert [a, b, d][1..] == [b, d];
    RunChecksStep([a, b, d], s, emailOk);
    RunTwo(b, d, StepValue(a, s), emailOk);
  }

  /** A chain of two steps, unrolled. */
  lemma RunTwo(b: Check, d: Check, s: string, emailOk: string -> bool)
    ensures RunChecks([b, d], s, emailOk).issues == StepIssues(b, s, emailOk) + StepIssues(d, StepValue(b, s), emailOk)
  {
    assert [b, d][1..] == [d] && [d][1..] == [];
    RunChecksStep([b, d], s, emailOk);
    RunChecksStep([d], StepValue(b, s), emailOk);
  }

  /** A trimmed-and-bounded field reports the lower-bound message exactly when
      the trimmed string is too short, then the upper-bound message exactly
      when it is too long; its value is the trimmed string. */
  lemma TrimmedBoundedIssues(f: Field, lo: nat, hi: nat, tooShort: string, tooLong: string, s: string, emailOk: string -> bool)
    requires TrimmedBounded(f, lo, hi, tooShort, tooLong)
    ensures ParseField(f, Some(Str(s)), emailOk).value == Trim(s)
    ensures ParseField(f, Some(Str(s)), emailOk).issues ==
      (if Utf16Length(Trim(s)) < lo then [tooShort] else []) + (if Utf16Length(Trim(s)) > hi then [tooLong] else [])
  {
    var cs := [TrimStep, MinLength(lo, tooShort), MaxLength(hi, tooLong)];
    var t := Trim(s);
    calc {
      ParseField(f, Some(Str(s)), emailOk).issues;
      RunChecks(cs, s, emailOk).issues;
      { RunThree(TrimStep, MinLength(lo, tooShort), MaxLength(hi, tooLong), s, emailOk); }
      StepIssues(TrimStep, s, emailOk) + StepIssues(MinLength(lo, tooShort), t, emailOk) + StepIssues(MaxLength(hi, tooLong), t, emailOk);
      [] + (if Utf16Length(t) < lo then [tooShort] else []) + (if Utf16Length(t) > hi then [tooLong] else []);
    }
  }

  /** Shape of every email field: the format test on the raw string, then
      trim, then an upper bound only. */
  predicate EmailShaped(f: Field, invalid: string, hi: nat, tooLong: string) {
    f.checks == [EmailFormat(invalid), TrimStep, MaxLength(hi, tooLong)]
  }

  /** An email field tests the format before trimming and bounds only the
      length of the trimmed string from above. */
  lemma EmailShapedIssues(f: Field, invalid: string, hi: nat, tooLong: string, s: string, emailOk: string -> bool)
    requires EmailShaped(f, invalid, hi, tooLong)
    ensures ParseField(f, Some(Str(s)), emailOk).value == Trim(s)
    ensures ParseField(f, Some(Str(s)), emailOk).issues ==
      (if emailOk(s) then [] else [invalid]) + (if Utf16Length(Trim(s)) > hi then [tooLong] else [])
  {
    var cs := [EmailFormat(invalid), TrimStep, MaxLength(hi, tooLong)];
    var t := Trim(s);
    calc {
      ParseField(f, Some(Str(s)), emailOk).issues;
      RunChecks(cs, s, emailOk).issues;
      { RunThree(EmailFormat(invalid), TrimStep, MaxLength(hi, tooLong), s, emailOk); }
      StepIssues(EmailFormat(invalid), s, emailOk) + StepIssues(TrimStep, s, emailOk) + StepIssues(MaxLength(hi, tooLong), t, emailOk);
      (if emailOk(s) then [] else [invalid]) + [] + (if Utf16Length(t) > hi then [tooLong] else []);
    }
  }

  predicate TrimsFirst(f: Field) {
    |f.checks| > 0 && f.checks[0].TrimStep?
  }

  /** A field whose chain starts with `.trim()` gives its own output the same
      verdict and the same value as the string it came from. */
  lemma ReparseTrimFirstField(f: Field, s: string, emailOk: string -> bool)
    requires TrimsFirst(f)
    ensures ParseField(f, Some(Str(ParseField(f, Some(Str(s)), emailOk).value)), emailOk)
         == ParseField(f, Some(Str(s)), emailOk)
  {
    var c := f.checks;
    assert c == [TrimStep] + c[1..];
    var v := RunChecks(c, s, emailOk).value;
    assert v == Trim(s);
    TrimIdempotent(s);
    assert RunChecks(c, v, emailOk) == Parsed([] + RunChecks(c[1..], Trim(s), emailOk).issues, RunChecks(c[1..], Trim(s), emailOk).value);
    assert RunChecks(c, s, emailOk) == Parsed([] + RunChecks(c[1..], Trim(s), emailOk).issues, RunChecks(c[1..], Trim(s), emailOk).value);
  }

  /** Validating an accepted body a second time, with a schema whose every
      field trims first, accepts it unchanged. */
  lemma ReparseIsIdentity(schema: Schema, body: Body, emailOk: string -> bool)
    requires DistinctKeys(schema)
    requires forall i :: 0 <= i < |schema| ==> TrimsFirst(schema[i])
    requires Parse(schema, body, emailOk).Success?
    ensures Parse(schema, Parse(schema, body, emailOk).value, emailOk) == Parse(schema, body, emailOk)
  {
    var out := Parse(schema, body, emailOk).value;
    forall i | 0 <= i < |schema|
      ensures Lookup(out, schema[i].key) == Some(Str(FieldValue(schema[i], body, emailOk)))
      ensures FieldIssues(schema[i], out, emailOk) == []
      ensures FieldValue(schema[i], out, emailOk) == FieldValue(schema[i], body, emailOk)
    {
      var v := Lookup(body, schema[i].key);
      assert FieldIssues(schema[i], body, emailOk) == [];
      assert v.Some? && v.value.Str?;
      ReparseTrimFirstField(schema[i], v.value.text, emailOk);
    }
    var again := Parse(schema, out, emailOk);
    assert again.value == out by {
      assert again.value.Keys == out.Keys;
      forall x | x in out ensures again.value[x] == out[x] {
        var i :| 0 <= i < |schema| && schema[i].key == x;
      }
    }
  }
}

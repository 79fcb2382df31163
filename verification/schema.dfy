/**
 * The zod string checks the forms use, as data: a field is a list of checks
 * that must all pass, and a required field also fails when the value is absent.
 */
module Schema {
  import opened Wrappers
  import opened Regex

  datatype Check =
    | MinLength(n: nat)          // `.min(n)`
    | MaxLength(n: nat)          // `.max(n)`
    | Matches(pattern: seq<Term>) // `.regex(/^...$/)`
    | EmailFormat                // `.email()`
    | OneOf(values: seq<string>) // `z.enum([...])`

  /** Whether `s` passes one check. The e-mail address format is decided by
      `emailOk`, a predicate this model does not look inside. */
  predicate Passes(c: Check, s: string, emailOk: string -> bool)
  {
    match c
    case MinLength(n) => |s| >= n
    case MaxLength(n) => |s| <= n
    case Matches(p) => FullMatch(p, s)
    case EmailFormat => emailOk(s)
    case OneOf(vs) => s in vs
  }

  /** `z.string()...` (required) or `z.string()....optional()`. */
  datatype Field = Field(optional: bool, checks: seq<Check>)

  predicate PassesAll(checks: seq<Check>, s: string, emailOk: string -> bool)
  {
    forall i :: 0 <= i < |checks| ==> Passes(checks[i], s, emailOk)
  }

  /** An absent value is accepted only by an optional field; a present one must
      pass every check of the field. */
  predicate Accepts(f: Field, v: Option<string>, emailOk: string -> bool)
  {
    match v
    case None => f.optional
    case Some(s) => PassesAll(f.checks, s, emailOk)
  }

  /** A field with a length range and nothing else accepts exactly the present
      values whose length lies in the range, both ends included. */
  lemma LengthRange(lo: nat, hi: nat, v: Option<string>, emailOk: string -> bool)
    ensures Accepts(Field(false, [MinLength(lo), MaxLength(hi)]), v, emailOk)
      <==> v.Some? && lo <= |v.value| <= hi
  {
    var cs := [MinLength(lo), MaxLength(hi)];
    if v.Some? && lo <= |v.value| <= hi {
      forall i | 0 <= i < |cs|
        ensures Passes(cs[i], v.value, emailOk)
      {
      }
    }
    if v.Some? && PassesAll(cs, v.value, emailOk) {
      assert Passes(cs[0], v.value, emailOk);
      assert Passes(cs[1], v.value, emailOk);
    }
  }

  /** A field with a single enumeration check accepts exactly the listed values. */
  lemma Enumeration(values: seq<string>, v: Option<string>, emailOk: string -> bool)
    ensures Accepts(Field(false, [OneOf(values)]), v, emailOk)
      <==> v.Some? && v.value in values
  {
    if v.Some? && PassesAll([OneOf(values)], v.value, emailOk) {
      assert Passes([OneOf(values)][0], v.value, emailOk);
    }
  }
}

/**
 Structural validation of a vote submission. The validator walks the fields of
 the request in declaration order; for each field it tries the field's rule
 tags in order and reports the first one that fails, as one ErrorResponse.
 Only the `min` and `max` tags occur in this system.
 */
module Validation {
  import opened Wrappers

  /** A field's value as the validator inspects it. */
  datatype FieldValue = IntValue(n: int) | StringValue(s: string)

  /** A rule tag with its parameter: `min=bound` or `max=bound`. */
  datatype Rule = Min(bound: int) | Max(bound: int)

  function Tag(r: Rule): string {
    match r
    case Min(_) => "min"
    case Max(_) => "max"
  }

  /** What `min`/`max` compare: a number itself, or a string's length. */
  function Measure(v: FieldValue): int {
    match v
    case IntValue(n) => n
    case StringValue(s) => |s|
  }

  predicate Holds(r: Rule, v: FieldValue) {
    match r
    case Min(b) => Measure(v) >= b
    case Max(b) => Measure(v) <= b
  }

  /** A struct field: its Go name, its value and its `validate` tags. */
  datatype Field = Field(name: string, value: FieldValue, rules: seq<Rule>)

  /** One violation: the failing field's name, the failing tag and the offending value. */
  datatype ErrorResponse = ErrorResponse(error: bool, failedField: string, tag: string, value: FieldValue)

  /** The first of a field's rules that its value breaks. */
  function FirstFailing(rules: seq<Rule>, v: FieldValue): (r: Option<Rule>)
    ensures r.None? <==> forall i :: 0 <= i < |rules| ==> Holds(rules[i], v)
    ensures r.Some? ==> exists i :: (0 <= i < |rules| && rules[i] == r.value && !Holds(rules[i], v)
                                     && forall j :: 0 <= j < i ==> Holds(rules[j], v))
  {
    if |rules| == 0 then None
    else if !Holds(rules[0], v) then Some(rules[0])
    else
      var r := FirstFailing(rules[1..], v);
      if r.Some? then
        var i :| 0 <= i < |rules[1..]| && rules[1..][i] == r.value && !Holds(rules[1..][i], v)
          && forall j :: 0 <= j < i ==> Holds(rules[1..][j], v);
        assert rules[i + 1] == r.value;
        r
      else r
  }

  predicate Violates(f: Field) {
    FirstFailing(f.rules, f.value).Some?
  }

  /** The entry reported for a violating field. */
  function Report(f: Field): ErrorResponse
    requires Violates(f)
  {
    ErrorResponse(true, f.name, Tag(FirstFailing(f.rules, f.value).value), f.value)
  }

  /** Reference count of the fields that break at least one rule. */
  function NumViolating(fields: seq<Field>): nat {
    if |fields| == 0 then 0
    else (if Violates(fields[0]) then 1 else 0) + NumViolating(fields[1..])
  }

  /** The list of violations, one per violating field, empty when every rule holds. */
  function Check(fields: seq<Field>): (r: seq<ErrorResponse>)
    ensures |r| == NumViolating(fields)
    ensures r == [] <==> forall i :: 0 <= i < |fields| ==> !Violates(fields[i])
    ensures forall j :: 0 <= j < |r| ==> r[j].error
    ensures forall e :: e in r <==> exists f :: f in fields && Violates(f) && e == Report(f)
  {
    if |fields| == 0 then []
    else
      var rest := Check(fields[1..]);
      assert forall f :: f in fields <==> f == fields[0] || f in fields[1..];
      if Violates(fields[0]) then [Report(fields[0])] + rest else rest
  }

  /** The body of a vote submission. */
  datatype VoteRequest = VoteRequest(productId: string, score: int)

  /** The request's fields as the validator sees them: ProductID carries no tag, Score carries `min=1,max=5`. */
  function Fields(req: VoteRequest): seq<Field> {
    [ Field("ProductID", StringValue(req.productId), []),
      Field("Score", IntValue(req.score), [Min(1), Max(5)]) ]
  }

  /** The violations of a vote submission: none exactly when the score is in 1..5, and
      otherwise the single entry naming Score, the broken bound and the score. */
  function ValidateVoteRequest(req: VoteRequest): (r: seq<ErrorResponse>)
    ensures r == [] <==> 1 <= req.score <= 5
    ensures req.score < 1 ==> r == [ErrorResponse(true, "Score", "min", IntValue(req.score))]
    ensures req.score > 5 ==> r == [ErrorResponse(true, "Score", "max", IntValue(req.score))]
  {
    var fields := Fields(req);
    var score := fields[1];
    assert FirstFailing(score.rules, score.value) ==
      if req.score < 1 then Some(Min(1)) else if req.score > 5 then Some(Max(5)) else None by {
      assert score.rules[1..] == [Max(5)];
      assert score.rules[1..][1..] == [];
    }
    assert !Violates(fields[0]);
    assert fields[1..] == [score] && fields[1..][1..] == [];
    assert Check(fields) == Check([score]);
    assert Check([score]) == if Violates(score) then [Report(score)] else [];
    Check(fields)
  }

  /** The product id never influences validation, whatever its value, the empty string included. */
  lemma ProductIdUnconstrained(p1: string, p2: string, score: int)
    ensures ValidateVoteRequest(VoteRequest(p1, score)) == ValidateVoteRequest(VoteRequest(p2, score))
  {
  }
}

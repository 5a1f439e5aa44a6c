/**
 * The part of the framework's validator the form requests rely on: the
 * rules they name, when a rule is applied to a field at all, what each rule
 * accepts, and the `validated()` data a successful request hands to its
 * controller.
 *
 * Input arrives as a map from field names to raw values. A rule other than
 * `required` is skipped for a field that is absent, that is a string with
 * nothing but whitespace, or that is null while the field also has
 * `nullable`. `max`/`min` measure a field by its numeric value when it also
 * has `integer`, and otherwise by string length, array count, or the length
 * of the value written as a string.
 */
module Validation {
  import opened Common

  /** A raw request value as decoded from the form or JSON body. */
  datatype Raw = RNull | RStr(s: string) | RInt(i: int) | RBool(b: bool) | RArray(size: nat)

  type Request = map<string, Raw>

  datatype Rule =
    | Required
    | Nullable
    | IsString
    | IsInteger
    | IsBoolean
    | IsArray
    | IsDate
    | MaxSize(max: int)
    | MinSize(min: int)

  /** The rules of a form request, field by field, in declaration order. */
  type Rules = seq<(string, seq<Rule>)>

  /** The characters PHP's `trim` removes. */
  predicate TrimChar(c: char)
  {
    c == ' ' || c == '\t' || c == '\n' || c == '\r' || c == '\0' || c == '\U{000B}'
  }

  /** `trim($value) === ''`. */
  predicate Blank(s: string)
  {
    forall i :: 0 <= i < |s| ==> TrimChar(s[i])
  }

  /** Only `required` is implicit among the rules used here: it runs even on a missing field. */
  predicate Implicit(rule: Rule)
  {
    rule.Required?
  }

  /** Whether `rule`, one of `rules`, is applied to a field that is `present` with value `v`. */
  predicate Runs(rule: Rule, rules: seq<Rule>, present: bool, v: Raw)
  {
    Implicit(rule) || (present && !(v.RStr? && Blank(v.s)) && !(v.RNull? && Nullable in rules))
  }

  /** The number of characters of `i` written in decimal, sign included. */
  function DecimalLength(i: int): (n: nat)
    ensures n >= 1
    ensures 0 <= i < 10 ==> n == 1
    decreases if i < 0 then 1 - i else i
  {
    if i < 0 then 1 + DecimalLength(-i)
    else if i < 10 then 1
    else 1 + DecimalLength(i / 10)
  }

  /** The size `max` and `min` compare against. */
  function Size(v: Raw, numeric: bool): int
  {
    match v
    case RNull => 0
    case RStr(s) => |s|
    case RInt(i) => if numeric then i else DecimalLength(i)
    case RBool(b) => if b then 1 else 0
    case RArray(n) => n
  }

  /** The values the `boolean` rule accepts: true, false, 1, 0, "1" and "0". */
  predicate BooleanLike(v: Raw)
  {
    v.RBool? || v == RInt(0) || v == RInt(1) || v == RStr("0") || v == RStr("1")
  }

  /** Whether `v` satisfies `rule`; `parseDate` stands for the date parser. */
  predicate Holds(rule: Rule, rules: seq<Rule>, v: Raw, parseDate: string -> Option<Time>)
  {
    match rule
    case Required =>
      (match v
       case RNull => false
       case RStr(s) => !Blank(s)
       case RArray(n) => n > 0
       case _ => true)
    case Nullable => true
    case IsString => v.RStr?
    case IsInteger => v.RInt?
    case IsBoolean => BooleanLike(v)
    case IsArray => v.RArray?
    case IsDate => v.RStr? && parseDate(v.s).Some?
    case MaxSize(n) => Size(v, IsInteger in rules) <= n
    case MinSize(n) => Size(v, IsInteger in rules) >= n
  }

  /** The value the validator sees for `field`: a missing field reads as null. */
  function ValueOf(req: Request, field: string): Raw
  {
    if field in req then req[field] else RNull
  }

  /** Every rule of the field that is applied holds. */
  predicate FieldPasses(req: Request, field: string, rules: seq<Rule>, parseDate: string -> Option<Time>)
  {
    forall k :: 0 <= k < |rules| ==>
      Runs(rules[k], rules, field in req, ValueOf(req, field)) ==> Holds(rules[k], rules, ValueOf(req, field), parseDate)
  }

  predicate Passes(req: Request, rs: Rules, parseDate: string -> Option<Time>)
  {
    forall k :: 0 <= k < |rs| ==> FieldPasses(req, rs[k].0, rs[k].1, parseDate)
  }

  /**
   * The fields of the error bag, in rule order: exactly the fields with a
   * failing rule, and none when the request passes.
   */
  function FailingFields(req: Request, rs: Rules, parseDate: string -> Option<Time>): (r: seq<string>)
    ensures r == [] <==> Passes(req, rs, parseDate)
    ensures forall f :: f in r <==> exists k :: 0 <= k < |rs| && rs[k].0 == f && !FieldPasses(req, f, rs[k].1, parseDate)
    decreases |rs|
  {
    if rs == [] then []
    else
      var rest := FailingFields(req, rs[1..], parseDate);
      assert forall k :: 1 <= k < |rs| ==> rs[k] == rs[1..][k - 1];
      if FieldPasses(req, rs[0].0, rs[0].1, parseDate) then rest else [rs[0].0] + rest
  }

  /** The names the rules speak of. */
  function Fields(rs: Rules): set<string>
  {
    set k | 0 <= k < |rs| :: rs[k].0
  }

  /**
   * `validated()`: the request restricted to the fields that have rules;
   * fields the request did not send are not invented, and every other input
   * is dropped.
   */
  function Validated(req: Request, rs: Rules): (r: Request)
    ensures forall f :: f in r <==> f in req && f in Fields(rs)
    ensures forall f :: f in r ==> r[f] == req[f]
  {
    map f | f in req && f in Fields(rs) :: req[f]
  }

  /** The result of resolving a form request: 403, 422 with the failing fields, or the validated data. */
  datatype Resolution = Unauthorized | Rejected(fields: seq<string>) | Accepted(data: Request)

  /**
   * A form request is resolved by `authorize` first and by the rules second;
   * the controller runs only on `Accepted`, with the validated data.
   */
  function Resolve(authorized: bool, req: Request, rs: Rules, parseDate: string -> Option<Time>): (r: Resolution)
    ensures !authorized <==> r.Unauthorized?
    ensures r.Rejected? <==> authorized && !Passes(req, rs, parseDate)
    ensures r.Rejected? ==> r.fields == FailingFields(req, rs, parseDate) && r.fields != []
    ensures r.Accepted? <==> authorized && Passes(req, rs, parseDate)
    ensures r.Accepted? ==> r.data == Validated(req, rs)
  {
    if !authorized then Unauthorized
    else
      var failing := FailingFields(req, rs, parseDate);
      if failing != [] then Rejected(failing) else Accepted(Validated(req, rs))
  }

  // What the rule lists the form requests use accept, field by field, stated
  // directly on the request.

  /** `required|string|max:n` (no `max` when `max` is `None`): a non-blank string of at most `n` characters. */
  predicate RequiredString(req: Request, f: string, max: Option<int>)
  {
    f in req && req[f].RStr? && !Blank(req[f].s) && (max.Some? ==> |req[f].s| <= max.value)
  }

  /** `nullable|string|max:n`: not sent, null, blank, or a string of at most `n` characters. */
  predicate OptionalString(req: Request, f: string, max: int)
  {
    f !in req || req[f].RNull? || (req[f].RStr? && (Blank(req[f].s) || |req[f].s| <= max))
  }

  /** `boolean`: not sent, blank, or one of true, false, 1, 0, "1", "0"; null is refused. */
  predicate OptionalBoolean(req: Request, f: string)
  {
    f !in req || (req[f].RStr? && Blank(req[f].s)) || BooleanLike(req[f])
  }

  /** `integer|min:0`: not sent, blank, or a non-negative integer; null is refused. */
  predicate OptionalNonNegative(req: Request, f: string)
  {
    f !in req || (req[f].RStr? && Blank(req[f].s)) || (req[f].RInt? && req[f].i >= 0)
  }

  /** `nullable|array`: not sent, null, blank, or an array. */
  predicate OptionalArray(req: Request, f: string)
  {
    f !in req || req[f].RNull? || (req[f].RStr? && Blank(req[f].s)) || req[f].RArray?
  }

  /** `nullable|date`: not sent, null, blank, or a string the date parser reads. */
  predicate OptionalDate(req: Request, f: string, parseDate: string -> Option<Time>)
  {
    f !in req || req[f].RNull? || (req[f].RStr? && (Blank(req[f].s) || parseDate(req[f].s).Some?))
  }

  lemma RequiredStringMaxRules(req: Request, f: string, n: int, parseDate: string -> Option<Time>)
    ensures FieldPasses(req, f, [Required, IsString, MaxSize(n)], parseDate) <==> RequiredString(req, f, Some(n))
  {
    var rules := [Required, IsString, MaxSize(n)];
    var v := ValueOf(req, f);
    if FieldPasses(req, f, rules, parseDate) {
      assert Runs(rules[0], rules, f in req, v) ==> Holds(rules[0], rules, v, parseDate);
      assert Runs(rules[1], rules, f in req, v) ==> Holds(rules[1], rules, v, parseDate);
      assert Runs(rules[2], rules, f in req, v) ==> Holds(rules[2], rules, v, parseDate);
    }
  }

  lemma RequiredStringRules(req: Request, f: string, parseDate: string -> Option<Time>)
    ensures FieldPasses(req, f, [Required, IsString], parseDate) <==> RequiredString(req, f, None)
  {
    var rules := [Required, IsString];
    var v := ValueOf(req, f);
    if FieldPasses(req, f, rules, parseDate) {
      assert Runs(rules[0], rules, f in req, v) ==> Holds(rules[0], rules, v, parseDate);
      assert Runs(rules[1], rules, f in req, v) ==> Holds(rules[1], rules, v, parseDate);
    }
  }

  lemma NullableStringRules(req: Request, f: string, n: int, parseDate: string -> Option<Time>)
    ensures FieldPasses(req, f, [Nullable, IsString, MaxSize(n)], parseDate) <==> OptionalString(req, f, n)
  {
    var rules := [Nullable, IsString, MaxSize(n)];
    var v := ValueOf(req, f);
    if FieldPasses(req, f, rules, parseDate) {
      assert Runs(rules[1], rules, f in req, v) ==> Holds(rules[1], rules, v, parseDate);
      assert Runs(rules[2], rules, f in req, v) ==> Holds(rules[2], rules, v, parseDate);
    }
  }

  lemma BooleanRules(req: Request, f: string, parseDate: string -> Option<Time>)
    ensures FieldPasses(req, f, [IsBoolean], parseDate) <==> OptionalBoolean(req, f)
  {
    var rules := [IsBoolean];
    var v := ValueOf(req, f);
    if FieldPasses(req, f, rules, parseDate) {
      assert Runs(rules[0], rules, f in req, v) ==> Holds(rules[0], rules, v, parseDate);
    }
  }

  lemma NonNegativeIntegerRules(req: Request, f: string, parseDate: string -> Option<Time>)
    ensures FieldPasses(req, f, [IsInteger, MinSize(0)], parseDate) <==> OptionalNonNegative(req, f)
  {
    var rules := [IsInteger, MinSize(0)];
    var v := ValueOf(req, f);
    if FieldPasses(req, f, rules, parseDate) {
      assert Runs(rules[0], rules, f in req, v) ==> Holds(rules[0], rules, v, parseDate);
      assert Runs(rules[1], rules, f in req, v) ==> Holds(rules[1], rules, v, parseDate);
    }
  }

  lemma NullableArrayRules(req: Request, f: string, parseDate: string -> Option<Time>)
    ensures FieldPasses(req, f, [Nullable, IsArray], parseDate) <==> OptionalArray(req, f)
  {
    var rules := [Nullable, IsArray];
    var v := ValueOf(req, f);
    if FieldPasses(req, f, rules, parseDate) {
      assert Runs(rules[1], rules, f in req, v) ==> Holds(rules[1], rules, v, parseDate);
    }
  }

  lemma NullableDateRules(req: Request, f: string, parseDate: string -> Option<Time>)
    ensures FieldPasses(req, f, [Nullable, IsDate], parseDate) <==> OptionalDate(req, f, parseDate)
  {
    var rules := [Nullable, IsDate];
    var v := ValueOf(req, f);
    if FieldPasses(req, f, rules, parseDate) {
      assert Runs(rules[1], rules, f in req, v) ==> Holds(rules[1], rules, v, parseDate);
    }
  }

  // Reading validated values into the typed fields of a record, as the
  // model's casts do.

  /** PHP truthiness, the `boolean` cast. */
  function AsBool(v: Raw): bool
  {
    match v
    case RNull => false
    case RStr(s) => s != "" && s != "0"
    case RInt(i) => i != 0
    case RBool(b) => b
    case RArray(n) => n > 0
  }

  /** The `integer` cast of a value that passed `integer` or was skipped for being blank. */
  function AsInt(v: Raw): int
  {
    match v
    case RInt(i) => i
    case RBool(b) => if b then 1 else 0
    case _ => 0
  }

  /** The string of a value that passed `string` (or the empty string). */
  function AsString(v: Raw): string
  {
    if v.RStr? then v.s else ""
  }

  /** An optional string field: not sent, sent as null, or a string. */
  function StringField(data: Request, f: string): (r: Field<string>)
    ensures f !in data ==> r.Absent?
    ensures f in data && data[f].RNull? ==> r.Null?
    ensures f in data && data[f].RStr? ==> r == Given(data[f].s)
  {
    if f !in data then Absent
    else if data[f].RNull? then Null
    else Given(AsString(data[f]))
  }

  function BoolField(data: Request, f: string): (r: Option<bool>)
    ensures r.Some? <==> f in data
    ensures f in data && data[f].RBool? ==> r == Some(data[f].b)
  {
    if f in data then Some(AsBool(data[f])) else None
  }

  function IntField(data: Request, f: string): (r: Option<int>)
    ensures r.Some? <==> f in data
    ensures f in data && data[f].RInt? ==> r == Some(data[f].i)
  {
    if f in data then Some(AsInt(data[f])) else None
  }

  /** A nullable date field; a value that is not a date reads as null. */
  function DateField(data: Request, f: string, parseDate: string -> Option<Time>): (r: Field<Time>)
    ensures f !in data ==> r.Absent?
    ensures f in data && data[f].RStr? && parseDate(data[f].s).Some? ==> r == Given(parseDate(data[f].s).value)
  {
    if f !in data then Absent
    else if data[f].RStr? && parseDate(data[f].s).Some? then Given(parseDate(data[f].s).value)
    else Null
  }
}

/** Masking sensitive fields (apps/api/src/events/redact.ts), on JSON values. */
module Redaction {
  import opened Prelude

  datatype Json =
    | Null
    | Bool(b: bool)
    | Number(n: real)
    | Str(s: string)
    | Arr(items: seq<Json>)
    | Obj(fields: seq<Field>)

  /** Own properties in enumeration order. */
  datatype Field = Field(key: string, value: Json)

  const REDACTED := "[redacted]"

  const SENSITIVE_KEYS :=
    {"to", "email", "password", "secret", "token", "authorization", "apikey", "connection", "url", "redisurl"}

  /** Assigning to this key on a plain object sets its prototype and creates no property. */
  const PROTO := "__proto__"

  /**
   * Lower case, as far as membership in a set of ASCII names can tell: outside ASCII only the Kelvin sign maps to a
   * single ASCII letter.
   */
  function LowerChar(c: char): char {
    if 'A' <= c <= 'Z' then (c as int + 32) as char else if c == '\U{212A}' then 'k' else c
  }

  predicate Sensitive(key: string) { Map(LowerChar, key) in SENSITIVE_KEYS }

  // ---- Which keys are masked ----

  /** `c` is the ASCII lower-case letter `lower` in either case; the Kelvin sign counts as a k. */
  predicate LetterIs(c: char, lower: char) {
    || c == lower
    || ('A' <= c <= 'Z' && c as int + 32 == lower as int)
    || (lower == 'k' && c == '\U{212A}')
  }

  /** `key` spells `name` in any mix of cases. */
  predicate Spells(key: string, name: string) {
    |key| == |name| && forall k :: 0 <= k < |name| ==> LetterIs(key[k], name[k])
  }

  predicate LowerLetters(name: string) {
    forall k :: 0 <= k < |name| ==> 'a' <= name[k] <= 'z'
  }

  lemma LowersTo(key: string, name: string)
    requires LowerLetters(name)
    ensures Map(LowerChar, key) == name <==> Spells(key, name)
  {
    if Spells(key, name) { assert forall k :: 0 <= k < |name| ==> LowerChar(key[k]) == name[k]; }
    if Map(LowerChar, key) == name {
      forall k | 0 <= k < |name| ensures LetterIs(key[k], name[k]) { assert LowerChar(key[k]) == name[k]; }
    }
  }

  lemma LowersToContact(key: string, lower: string)
    requires lower == Map(LowerChar, key)
    ensures lower == "to" <==> Spells(key, "to")
    ensures lower == "email" <==> Spells(key, "email")
    ensures lower == "password" <==> Spells(key, "password")
    ensures lower == "secret" <==> Spells(key, "secret")
    ensures lower == "token" <==> Spells(key, "token")
  {
    LowersTo(key, "to");
    LowersTo(key, "email");
    LowersTo(key, "password");
    LowersTo(key, "secret");
    LowersTo(key, "token");
  }

  lemma LowersToConnection(key: string, lower: string)
    requires lower == Map(LowerChar, key)
    ensures lower == "authorization" <==> Spells(key, "authorization")
    ensures lower == "apikey" <==> Spells(key, "apikey")
    ensures lower == "connection" <==> Spells(key, "connection")
    ensures lower == "url" <==> Spells(key, "url")
    ensures lower == "redisurl" <==> Spells(key, "redisurl")
  {
    LowersTo(key, "authorization");
    LowersTo(key, "apikey");
    LowersTo(key, "connection");
    LowersTo(key, "url");
    LowersTo(key, "redisurl");
  }

  /** Main result: a key is sensitive exactly when it spells one of ten names, whatever its case. */
  lemma SensitiveExactly(key: string)
    ensures Sensitive(key) <==>
      || Spells(key, "to") || Spells(key, "email") || Spells(key, "password") || Spells(key, "secret")
      || Spells(key, "token") || Spells(key, "authorization") || Spells(key, "apikey") || Spells(key, "connection")
      || Spells(key, "url") || Spells(key, "redisurl")
  {
    LowersToContact(key, Map(LowerChar, key));
    LowersToConnection(key, Map(LowerChar, key));
  }

  function Keys(fields: seq<Field>): (r: seq<string>)
    ensures |r| == |fields| && forall k :: 0 <= k < |fields| ==> r[k] == fields[k].key
  {
    Map((f: Field) => f.key, fields)
  }

  /** No object has the same key twice. */
  predicate WellFormed(v: Json)
    decreases v
  {
    match v
    case Arr(items) => forall k :: 0 <= k < |items| ==> WellFormed(items[k])
    case Obj(fields) => Distinct(Keys(fields)) && forall k :: 0 <= k < |fields| ==> WellFormed(fields[k].value)
    case _ => true
  }

  function Redacted(v: Json): Json
    decreases v
  {
    match v
    case Arr(items) => Arr(seq(|items|, k requires 0 <= k < |items| => Redacted(items[k])))
    case Obj(fields) => Obj(RedactedFields(fields))
    case _ => v
  }

  function RedactedFields(fields: seq<Field>): seq<Field>
    decreases fields
  {
    if fields == [] then []
    else
      var before, last := RedactedFields(fields[..|fields| - 1]), fields[|fields| - 1];
      if last.key == PROTO then before
      else before + [Field(last.key, if Sensitive(last.key) then Str(REDACTED) else Redacted(last.value))]
  }

  /** `result[key] = value`. */
  function Assign(result: seq<Field>, key: string, value: Json): seq<Field> {
    if key == PROTO then result
    else if key in Keys(result) then Overwrite(result, key, value)
    else result + [Field(key, value)]
  }

  function Overwrite(result: seq<Field>, key: string, value: Json): seq<Field> {
    if result == [] then []
    else [if result[0].key == key then Field(key, value) else result[0]] + Overwrite(result[1..], key, value)
  }

  lemma {:induction false} RedactedKeys(fields: seq<Field>)
    ensures forall f :: f in RedactedFields(fields) ==> f.key in Keys(fields) && f.key != PROTO
    ensures |RedactedFields(fields)| <= |fields|
    decreases |fields|
  {
    if fields != [] {
      var n := |fields| - 1;
      RedactedKeys(fields[..n]);
      assert Keys(fields)[n] == fields[n].key;
      assert forall k :: 0 <= k < n ==> Keys(fields[..n])[k] == Keys(fields)[k];
    }
  }

  method Redact(value: Json) returns (r: Json)
    requires WellFormed(value)
    ensures r == Redacted(value)
    decreases value
  {
    match value
    case Arr(items) =>
      var mapped: seq<Json> := [];
      for i := 0 to |items|
        invariant |mapped| == i && forall k :: 0 <= k < i ==> mapped[k] == Redacted(items[k])
      {
        var item := Redact(items[i]);
        mapped := mapped + [item];
      }
      r := Arr(mapped);
    case Obj(fields) =>
      var result: seq<Field> := [];
      for i := 0 to |fields|
        invariant result == RedactedFields(fields[..i])
      {
        var key, entry := fields[i].key, fields[i].value;
        var masked := Str(REDACTED);
        if !Sensitive(key) { masked := Redact(entry); }
        NewKey(fields, i);
        result := Assign(result, key, masked);
      }
      assert fields[..|fields|] == fields;
      r := Obj(result);
    case _ => r := value;
  }

  lemma NewKey(fields: seq<Field>, i: nat)
    requires Distinct(Keys(fields)) && i < |fields|
    ensures fields[..i + 1][..i] == fields[..i]
    ensures fields[i].key !in Keys(RedactedFields(fields[..i]))
  {
    RedactedKeys(fields[..i]);
    assert forall j :: 0 <= j < i ==> Keys(fields[..i])[j] == Keys(fields)[j] != Keys(fields)[i];
    var before := RedactedFields(fields[..i]);
    assert forall k :: 0 <= k < |before| ==> before[k] in before;
  }

  // ---- What survives, at every path ----

  datatype Hop = Key(key: string) | Index(index: nat)

  function Find(fields: seq<Field>, key: string): Option<Json> {
    if fields == [] then None
    else if fields[|fields| - 1].key == key then Some(fields[|fields| - 1].value)
    else Find(fields[..|fields| - 1], key)
  }

  function Get(v: Json, hop: Hop): Option<Json> {
    match hop
    case Key(key) => if v.Obj? then Find(v.fields, key) else None
    case Index(index) => if v.Arr? && index < |v.items| then Some(v.items[index]) else None
  }

  function Lookup(v: Json, path: seq<Hop>): Option<Json>
    decreases |path|
  {
    if path == [] then Some(v)
    else
      match Get(v, path[0])
      case None => None
      case Some(child) => Lookup(child, path[1..])
  }

  /** What the redacted value holds under one hop. */
  function Kept(v: Json, hop: Hop): Option<Json> {
    if hop == Key(PROTO) then None
    else
      match Get(v, hop)
      case None => None
      case Some(child) => Some(if hop.Key? && Sensitive(hop.key) then Str(REDACTED) else Redacted(child))
  }

  lemma {:induction false} FindRedacted(fields: seq<Field>, key: string)
    ensures Find(RedactedFields(fields), key) == Kept(Obj(fields), Key(key))
    decreases |fields|
  {
    if fields != [] {
      var n := |fields| - 1;
      FindRedacted(fields[..n], key);
      var before := RedactedFields(fields[..n]);
      if fields[n].key != PROTO {
        var all := RedactedFields(fields);
        assert all[..|all| - 1] == before;
      }
    }
  }

  lemma GetRedacted(v: Json, hop: Hop)
    ensures Get(Redacted(v), hop) == Kept(v, hop)
  {
    if v.Obj? && hop.Key? { FindRedacted(v.fields, hop.key); }
  }

  lemma {:induction false} FindOwn(fields: seq<Field>, k: nat)
    requires Distinct(Keys(fields)) && k < |fields|
    ensures Find(fields, fields[k].key) == Some(fields[k].value)
    decreases |fields|
  {
    var n := |fields| - 1;
    assert Keys(fields)[k] == fields[k].key && Keys(fields)[n] == fields[n].key;
    if k < n {
      var init := fields[..n];
      assert forall j :: 0 <= j < n ==> Keys(init)[j] == Keys(fields)[j];
      FindOwn(init, k);
    }
  }

  lemma KeptOf(fields: seq<Field>, key: string, value: Json)
    requires key != PROTO && Find(fields, key) == Some(value)
    ensures Kept(Obj(fields), Key(key)) == Some(if Sensitive(key) then Str(REDACTED) else Redacted(value))
  {
  }

  /** In the copy of an object each field but `__proto__` has the marker or, if not sensitive, its redacted value. */
  lemma FieldMasked(fields: seq<Field>, k: nat, key: string, value: Json)
    requires Distinct(Keys(fields)) && k < |fields| && fields[k] == Field(key, value) && key != "__proto__"
    ensures Find(RedactedFields(fields), key) == Some(if Sensitive(key) then Str("[redacted]") else Redacted(value))
  {
    FindOwn(fields, k);
    KeptOf(fields, key, value);
    FindRedacted(fields, key);
  }

  /** An address under a key in any case does not reach the copy. */
  lemma AnyCaseIsMasked(key: string, value: Json)
    requires Spells(key, "email")
    ensures Redacted(Obj([Field(key, value)])) == Obj([Field(key, Str("[redacted]"))])
  {
    SensitiveExactly(key);
    assert Spells("__proto__", "email") ==> false;
    var fields := [Field(key, value)];
    assert fields[..0] == [] && RedactedFields([]) == [];
    assert RedactedFields(fields) == [] + [Field(key, Str("[redacted]"))];
  }

  predicate Plain(hop: Hop) {
    hop.Key? ==> hop.key != PROTO && !Sensitive(hop.key)
  }

  /** Along a path of plain keys and indices the redacted value has what the original has, redacted in turn. */
  lemma {:induction false} PlainPathsKept(v: Json, path: seq<Hop>)
    requires forall k :: 0 <= k < |path| ==> Plain(path[k])
    ensures Lookup(Redacted(v), path)
         == if Lookup(v, path).Some? then Some(Redacted(Lookup(v, path).value)) else None
    decreases |path|
  {
    if path != [] {
      assert Plain(path[0]);
      GetRedacted(v, path[0]);
      if Get(v, path[0]).Some? { PlainPathsKept(Get(v, path[0]).value, path[1..]); }
    }
  }

  /**
   * Main result: whatever a path meets in the redacted value, if it passes a sensitive key then that key is the last
   * hop and the marker is all there is; no path passes `__proto__`.
   */
  lemma {:induction false} NothingSensitiveSurvives(v: Json, path: seq<Hop>, k: nat)
    requires k < |path| && path[k].Key? && Lookup(Redacted(v), path).Some?
    ensures path[k].key != PROTO
    ensures Sensitive(path[k].key) ==> k == |path| - 1 && Lookup(Redacted(v), path) == Some(Str(REDACTED))
    decreases |path|
  {
    GetRedacted(v, path[0]);
    if k > 0 && Plain(path[0]) {
      assert path[1..][k - 1] == path[k];
      NothingSensitiveSurvives(Get(v, path[0]).value, path[1..], k - 1);
    }
  }

  lemma {:induction false} KeysKeptWithoutProto(fields: seq<Field>)
    requires forall k :: 0 <= k < |fields| ==> fields[k].key != PROTO
    ensures |RedactedFields(fields)| == |fields|
    ensures forall k :: 0 <= k < |fields| ==> RedactedFields(fields)[k].key == fields[k].key
    decreases |fields|
  {
    if fields != [] {
      KeysKeptWithoutProto(fields[..|fields| - 1]);
    }
  }

  /** Keys are kept, in order, exactly when none is `__proto__`. */
  lemma KeysKept(fields: seq<Field>)
    ensures Keys(RedactedFields(fields)) == Keys(fields) <==> PROTO !in Keys(fields)
  {
    RedactedKeys(fields);
    var r := RedactedFields(fields);
    if PROTO in Keys(fields) {
      assert forall k :: 0 <= k < |r| ==> Keys(r)[k] == r[k].key && r[k] in r;
      assert PROTO !in Keys(r);
    } else {
      assert forall k :: 0 <= k < |fields| ==> Keys(fields)[k] == fields[k].key;
      KeysKeptWithoutProto(fields);
    }
  }

  // ---- The shape, at every depth ----

  /** Same items and same keys in the same order, all the way down except under sensitive keys; scalars are equal. */
  predicate SameShape(v: Json, w: Json)
    decreases v
  {
    match (v, w)
    case (Arr(x), Arr(y)) => |x| == |y| && forall k :: 0 <= k < |x| ==> SameShape(x[k], y[k])
    case (Obj(f), Obj(g)) => |f| == |g| && forall k :: 0 <= k < |f| ==> SameShapeField(f[k], g[k])
    case _ => v == w
  }

  predicate SameShapeField(f: Field, g: Field)
    decreases f
  {
    f.key == g.key && (Sensitive(f.key) || SameShape(f.value, g.value))
  }

  /** No key `__proto__`, except perhaps below a sensitive key. */
  predicate NoProto(v: Json)
    decreases v
  {
    match v
    case Arr(items) => forall k :: 0 <= k < |items| ==> NoProto(items[k])
    case Obj(fields) => forall k :: 0 <= k < |fields| ==> NoProtoField(fields[k])
    case _ => true
  }

  predicate NoProtoField(f: Field)
    decreases f
  {
    f.key != PROTO && (Sensitive(f.key) || NoProto(f.value))
  }

  function RedactedField(f: Field): Field
    decreases f
  {
    Field(f.key, if Sensitive(f.key) then Str(REDACTED) else Redacted(f.value))
  }

  predicate NamesProto(fields: seq<Field>) {
    exists k :: 0 <= k < |fields| && fields[k].key == PROTO
  }

  lemma {:induction false} FieldsInPlace(fields: seq<Field>, k: nat)
    requires !NamesProto(fields) && k < |fields|
    ensures |RedactedFields(fields)| == |fields| && RedactedFields(fields)[k] == RedactedField(fields[k])
    decreases |fields|
  {
    KeysKeptWithoutProto(fields);
    var n := |fields| - 1;
    assert fields[n].key != PROTO;
    var init := fields[..n];
    KeysKeptWithoutProto(init);
    if k < n {
      assert !NamesProto(init);
      FieldsInPlace(init, k);
    }
  }

  lemma {:induction false} FewerWithProto(fields: seq<Field>)
    requires NamesProto(fields)
    ensures |RedactedFields(fields)| < |fields|
    decreases |fields|
  {
    var init, last := fields[..|fields| - 1], fields[|fields| - 1];
    RedactedKeys(init);
    if last.key != PROTO {
      ProtoInInit(fields, init);
      FewerWithProto(init);
    }
  }

  lemma ProtoInInit(fields: seq<Field>, init: seq<Field>)
    requires NamesProto(fields) && fields[|fields| - 1].key != PROTO && init == fields[..|fields| - 1]
    ensures NamesProto(init)
  {
    var k :| 0 <= k < |fields| && fields[k].key == PROTO;
    assert init[k].key == PROTO;
  }

  /** The claim below, for one field. */
  predicate FieldShapeKept(f: Field) {
    SameShapeField(f, RedactedField(f)) <==> NoProtoField(f)
  }

  lemma ShapeOfFields(fields: seq<Field>, out: seq<Field>)
    requires |out| == |fields|
    requires forall k :: 0 <= k < |fields| ==> (SameShapeField(fields[k], out[k]) <==> NoProtoField(fields[k]))
    ensures SameShape(Obj(fields), Obj(out)) <==> NoProto(Obj(fields))
  {
  }

  lemma NamedProto(fields: seq<Field>)
    requires NamesProto(fields)
    ensures !NoProto(Obj(fields))
  {
    var k :| 0 <= k < |fields| && fields[k].key == PROTO;
    assert !NoProtoField(fields[k]);
  }

  lemma FieldShapeInPlace(fields: seq<Field>, out: seq<Field>, k: nat)
    requires !NamesProto(fields) && out == RedactedFields(fields) && |out| == |fields| && k < |fields|
    requires FieldShapeKept(fields[k])
    ensures SameShapeField(fields[k], out[k]) <==> NoProtoField(fields[k])
  {
    FieldsInPlace(fields, k);
  }

  lemma SameLength(fields: seq<Field>)
    requires !NamesProto(fields)
    ensures |RedactedFields(fields)| == |fields|
  {
    KeysKeptWithoutProto(fields);
  }

  lemma FieldShapesInPlace(fields: seq<Field>, out: seq<Field>)
    requires !NamesProto(fields) && out == RedactedFields(fields) && |out| == |fields|
    requires forall k :: 0 <= k < |fields| ==> FieldShapeKept(fields[k])
    ensures forall k :: 0 <= k < |fields| ==> (SameShapeField(fields[k], out[k]) <==> NoProtoField(fields[k]))
  {
    forall k | 0 <= k < |fields| ensures SameShapeField(fields[k], out[k]) <==> NoProtoField(fields[k]) {
      FieldShapeInPlace(fields, out, k);
    }
  }

  lemma WithProtoShapeLost(fields: seq<Field>, v: Json, w: Json)
    requires v == Obj(fields) && w == Obj(RedactedFields(fields)) && NamesProto(fields)
    ensures !SameShape(v, w) && !NoProto(v)
  {
    FewerWithProto(fields);
    NamedProto(fields);
  }

  lemma WithoutProtoShapeKept(fields: seq<Field>, out: seq<Field>)
    requires out == RedactedFields(fields) && !NamesProto(fields)
    requires forall k :: 0 <= k < |fields| ==> FieldShapeKept(fields[k])
    ensures SameShape(Obj(fields), Obj(out)) <==> NoProto(Obj(fields))
  {
    SameLength(fields);
    FieldShapesInPlace(fields, out);
    ShapeOfFields(fields, out);
  }

  /** Main result: redaction keeps the shape of a value exactly when it holds no `__proto__` outside what is masked. */
  lemma {:induction false} ShapeKept(v: Json)
    ensures SameShape(v, Redacted(v)) <==> NoProto(v)
    decreases v
  {
    match v
    case Arr(items) =>
      forall k | 0 <= k < |items| ensures SameShape(items[k], Redacted(items[k])) <==> NoProto(items[k]) {
        ShapeKept(items[k]);
      }
      assert forall k :: 0 <= k < |items| ==> Redacted(v).items[k] == Redacted(items[k]);
    case Obj(fields) =>
      if NamesProto(fields) {
        WithProtoShapeLost(fields, v, Redacted(v));
      } else {
        forall k | 0 <= k < |fields| ensures FieldShapeKept(fields[k]) { ShapeKept(fields[k].value); }
        WithoutProtoShapeKept(fields, RedactedFields(fields));
      }
    case _ =>
  }

  /** An own key `__proto__`, whatever its value, is gone from the copy. */
  lemma ProtoIsDropped(value: Json)
    ensures Redacted(Obj([Field(PROTO, value)])) == Obj([])
    ensures !SameShape(Obj([Field(PROTO, value)]), Obj([]))
  {
    var fields := [Field(PROTO, value)];
    assert fields[..|fields| - 1] == [];
    assert RedactedFields(fields) == RedactedFields([]);
  }

  // ---- Redacting twice ----

  /** Nothing left to mask. */
  predicate Clean(v: Json)
    decreases v
  {
    match v
    case Arr(items) => forall k :: 0 <= k < |items| ==> Clean(items[k])
    case Obj(fields) => forall k :: 0 <= k < |fields| ==>
      && fields[k].key != PROTO
      && (if Sensitive(fields[k].key) then fields[k].value == Str(REDACTED) else Clean(fields[k].value))
    case _ => true
  }

  lemma {:induction false} CleanIsFixed(v: Json)
    ensures Redacted(v) == v <==> Clean(v)
    decreases v, 1
  {
    match v
    case Arr(items) =>
      forall k | 0 <= k < |items| ensures Redacted(items[k]) == items[k] <==> Clean(items[k]) {
        CleanIsFixed(items[k]);
      }
      assert Redacted(v) == v ==> forall k :: 0 <= k < |items| ==> Redacted(v).items[k] == items[k];
      if Clean(v) { assert Redacted(v).items == items; }
    case Obj(fields) => CleanFieldsFixed(fields);
    case _ =>
  }

  predicate CleanField(f: Field)
    decreases f
  {
    f.key != PROTO && if Sensitive(f.key) then f.value == Str(REDACTED) else Clean(f.value)
  }

  lemma CleanSnoc(init: seq<Field>, last: Field)
    ensures Clean(Obj(init + [last])) <==> Clean(Obj(init)) && CleanField(last)
  {
    var all := init + [last];
    assert all[|init|] == last;
    assert forall k :: 0 <= k < |init| ==> all[k] == init[k];
  }

  lemma {:induction false} CleanFieldsFixed(fields: seq<Field>)
    ensures RedactedFields(fields) == fields <==> Clean(Obj(fields))
    decreases fields, 0
  {
    if fields != [] {
      var init, last := fields[..|fields| - 1], fields[|fields| - 1];
      assert init + [last] == fields;
      CleanSnoc(init, last);
      RedactedKeys(init);
      if last.key != PROTO {
        CleanFieldsFixed(init);
        CleanIsFixed(last.value);
        var masked := if Sensitive(last.key) then Str(REDACTED) else Redacted(last.value);
        SameSnoc(RedactedFields(init), Field(last.key, masked), init, last);
      }
    }
  }

  lemma {:induction false} RedactedIsClean(v: Json)
    ensures Clean(Redacted(v))
    decreases v, 1
  {
    match v
    case Arr(items) =>
      forall k | 0 <= k < |items| ensures Clean(Redacted(items[k])) { RedactedIsClean(items[k]); }
    case Obj(fields) => RedactedFieldsClean(fields);
    case _ =>
  }

  lemma {:induction false} RedactedFieldsClean(fields: seq<Field>)
    ensures Clean(Obj(RedactedFields(fields)))
    decreases fields, 0
  {
    if fields != [] {
      RedactedFieldsClean(fields[..|fields| - 1]);
      RedactedIsClean(fields[|fields| - 1].value);
    }
  }

  /** Redacting twice is redacting once. */
  lemma RedactIsIdempotent(v: Json)
    ensures Redacted(Redacted(v)) == Redacted(v)
  {
    RedactedIsClean(v);
    CleanIsFixed(Redacted(v));
  }

  // ---- What redaction hides, and nothing else ----

  /** The values differ at most under sensitive keys and in `__proto__` fields. */
  predicate Alike(a: Json, b: Json)
    decreases a, b
  {
    match (a, b)
    case (Arr(x), Arr(y)) => |x| == |y| && forall k :: 0 <= k < |x| ==> Alike(x[k], y[k])
    case (Obj(f), Obj(g)) => AlikeFields(f, g)
    case _ => a == b
  }

  predicate AlikeFields(f: seq<Field>, g: seq<Field>)
    decreases f, g
  {
    if f != [] && f[|f| - 1].key == PROTO then AlikeFields(f[..|f| - 1], g)
    else if g != [] && g[|g| - 1].key == PROTO then AlikeFields(f, g[..|g| - 1])
    else if f == [] || g == [] then f == g
    else
      var x, y := f[|f| - 1], g[|g| - 1];
      x.key == y.key && (Sensitive(x.key) || Alike(x.value, y.value)) && AlikeFields(f[..|f| - 1], g[..|g| - 1])
  }

  /** Main result: two values redact to the same value exactly when they are alike. */
  lemma {:induction false} RedactHidesExactly(a: Json, b: Json)
    ensures Redacted(a) == Redacted(b) <==> Alike(a, b)
    decreases a, b
  {
    match (a, b)
    case (Arr(x), Arr(y)) =>
      if |x| == |y| {
        forall k | 0 <= k < |x| ensures Redacted(x[k]) == Redacted(y[k]) <==> Alike(x[k], y[k]) {
          RedactHidesExactly(x[k], y[k]);
        }
        if Alike(a, b) { assert Redacted(a).items == Redacted(b).items; }
        if Redacted(a) == Redacted(b) {
          forall k | 0 <= k < |x| ensures Alike(x[k], y[k]) {
            assert Redacted(a).items[k] == Redacted(x[k]) && Redacted(b).items[k] == Redacted(y[k]);
          }
        }
      } else {
        assert |Redacted(a).items| != |Redacted(b).items|;
      }
    case (Obj(f), Obj(g)) => RedactHidesFields(f, g);
    case _ =>
  }

  lemma {:induction false} RedactHidesFields(f: seq<Field>, g: seq<Field>)
    ensures RedactedFields(f) == RedactedFields(g) <==> AlikeFields(f, g)
    decreases f, g
  {
    if f != [] && f[|f| - 1].key == PROTO {
      RedactHidesFields(f[..|f| - 1], g);
    } else if g != [] && g[|g| - 1].key == PROTO {
      RedactHidesFields(f, g[..|g| - 1]);
    } else if f != [] && g != [] {
      var x, y := f[|f| - 1], g[|g| - 1];
      RedactHidesFields(f[..|f| - 1], g[..|g| - 1]);
      RedactHidesExactly(x.value, y.value);
      SameSnoc(RedactedFields(f[..|f| - 1]), RedactedFields(f)[|RedactedFields(f)| - 1],
               RedactedFields(g[..|g| - 1]), RedactedFields(g)[|RedactedFields(g)| - 1]);
    }
  }

  lemma SameSnoc<T>(a: seq<T>, x: T, b: seq<T>, y: T)
    ensures a + [x] == b + [y] <==> a == b && x == y
  {
    if a + [x] == b + [y] {
      assert (a + [x])[..|a|] == a && (b + [y])[..|b|] == b;
      assert (a + [x])[|a|] == x && (b + [y])[|b|] == y;
    }
  }
}

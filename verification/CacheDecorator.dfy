/** The `@cache` method decorator: key generation, skip rules, and the wrapper around the method. */
module CacheDecorator {
  import opened Prelude
  import opened JsonText

  /** An argument as the decorator sees it; an object is its JSON text, `Details` the request details. */
  datatype Arg = Details | Undefined | Null | Scalar(text: string, isString: bool) | Object(json: string)

  /** A result; JavaScript truthiness decides whether it is cached at all. */
  datatype Value = Value(data: string, truthy: bool)

  /** A positional rule; `value` lists the arguments that forbid caching, separated by "|". */
  datatype SkipParam = SkipParam(index: nat, value: string)

  /** Field rules for one object argument: field name to such a list. */
  datatype SkipFields = SkipFields(index: nat, fields: map<string, string>)

  datatype Options = Options(skipParams: seq<SkipParam>, skipNamed: seq<SkipFields>)

  datatype Outcome = Returned(value: Value) | Threw

  // ---------- keys ----------

  function Render(a: Arg): string {
    match a
    case Details => ""
    case Undefined => "undefined"
    case Null => "null"
    case Scalar(text, _) => text
    case Object(json) => json
  }

  function Rendered(args: seq<Arg>): seq<string> {
    if args == [] then []
    else (if args[0].Details? then [] else [Render(args[0])]) + Rendered(args[1..])
  }

  function KeyTail(parts: seq<string>): string {
    if parts == [] then "" else "_" + parts[0] + KeyTail(parts[1..])
  }

  function Key(methodName: string, args: seq<Arg>): string {
    methodName + KeyTail(Rendered(args))
  }

  method GenerateCacheKey(methodName: string, args: seq<Arg>) returns (key: string)
    ensures key == Key(methodName, args)
  {
    key := methodName;
    KeyEnds(args);
    for i := 0 to |args|
      invariant key + Remaining(args, i) == Key(methodName, args)
    {
      RenderStep(args, i);
      if !args[i].Details? {
        Appended(key, Render(args[i]), Remaining(args, i + 1));
        key := key + "_" + Render(args[i]);
      }
    }
  }

  /** What the arguments from `i` on still contribute to the key. */
  ghost function Remaining(args: seq<Arg>, i: nat): string
    requires i <= |args|
  {
    KeyTail(Rendered(args[i..]))
  }

  lemma {:induction false} KeyEnds(args: seq<Arg>)
    ensures Remaining(args, 0) == KeyTail(Rendered(args)) && Remaining(args, |args|) == ""
  {
    assert args[0..] == args;
  }

  lemma {:induction false} Appended(key: string, part: string, rest: string)
    ensures key + ("_" + part + rest) == key + "_" + part + rest
  {}

  lemma {:induction false} RenderStep(args: seq<Arg>, i: nat)
    requires i < |args|
    ensures Remaining(args, i) ==
      if args[i].Details? then Remaining(args, i + 1) else "_" + Render(args[i]) + Remaining(args, i + 1)
  {
    assert args[i..][1..] == args[i + 1..];
    var rest := Rendered(args[i + 1..]);
    assert [] + rest == rest;
    assert ([Render(args[i])] + rest)[1..] == rest;
  }

  /** One more argument adds an underscore and its text; the request details add nothing. */
  lemma {:induction false} KeyGrows(m: string, args: seq<Arg>, a: Arg)
    ensures Key(m, []) == m
    ensures Key(m, args + [a]) == Key(m, args) + (
      match a
      case Details => ""
      case Undefined => "_undefined"
      case Null => "_null"
      case Scalar(text, _) => "_" + text
      case Object(json) => "_" + json)
  {
    TailGrows(args, a);
    assert m + "" == m;
    var more := if a.Details? then "" else "_" + Render(a);
    assert m + (KeyTail(Rendered(args)) + more) == m + KeyTail(Rendered(args)) + more;
    assert "_" + "undefined" == "_undefined" && "_" + "null" == "_null";
  }

  lemma {:induction false} RenderedGrows(args: seq<Arg>, a: Arg)
    ensures Rendered(args + [a]) == Rendered(args) + (if a.Details? then [] else [Render(a)])
  {
    if args == [] {
      assert args + [a] == [a] && [a][1..] == [];
    } else {
      RenderedGrows(args[1..], a);
      assert (args + [a])[1..] == args[1..] + [a];
    }
  }

  lemma {:induction false} PartsGrow(parts: seq<string>, p: string)
    ensures KeyTail(parts + [p]) == KeyTail(parts) + ("_" + p)
  {
    if parts == [] {
      assert parts + [p] == [p] && [p][1..] == [];
    } else {
      PartsGrow(parts[1..], p);
      assert (parts + [p])[1..] == parts[1..] + [p];
      assert "_" + parts[0] + (KeyTail(parts[1..]) + ("_" + p)) == "_" + parts[0] + KeyTail(parts[1..]) + ("_" + p);
    }
  }

  lemma {:induction false} TailGrows(args: seq<Arg>, a: Arg)
    ensures KeyTail(Rendered(args + [a])) == KeyTail(Rendered(args)) + (if a.Details? then "" else "_" + Render(a))
  {
    RenderedGrows(args, a);
    if a.Details? {
      assert Rendered(args) + [] == Rendered(args);
    } else {
      PartsGrow(Rendered(args), Render(a));
    }
  }

  // ---------- skip rules ----------

  function FirstBar(s: string): (d: nat)
    ensures d <= |s| && (d < |s| ==> s[d] == '|')
    ensures forall i :: 0 <= i < d ==> s[i] != '|'
  {
    if s == [] || s[0] == '|' then 0 else 1 + FirstBar(s[1..])
  }

  /** `value.split('|')`. */
  function SplitBar(s: string): seq<string>
    decreases |s|
  {
    var d := FirstBar(s);
    if d == |s| then [s] else [s[..d]] + SplitBar(s[d + 1..])
  }

  /** The text stands in the list between two bars, or a bar and an end, and has none itself. */
  ghost predicate Listed(value: string, part: string) {
    '|' !in part && exists i, j :: ListedAt(value, part, i, j)
  }

  ghost predicate ListedAt(value: string, part: string, i: int, j: int) {
    && 0 <= i <= j <= |value| && value[i..j] == part
    && (i == 0 || value[i - 1] == '|') && (j == |value| || value[j] == '|')
  }

  lemma {:induction false} ListedLater(s: string, d: nat, part: string, i: nat, j: nat)
    requires d < |s| && s[d] == '|' && ListedAt(s[d + 1..], part, i, j)
    ensures ListedAt(s, part, i + d + 1, j + d + 1)
  {
    assert s[d + 1..][i..j] == s[i + d + 1..j + d + 1];
  }

  lemma {:induction false} ListedEarlier(s: string, d: nat, part: string, i: nat, j: nat)
    requires d < |s| && s[d] == '|' && i > d && ListedAt(s, part, i, j)
    ensures ListedAt(s[d + 1..], part, i - d - 1, j - d - 1)
  {
    assert s[d + 1..][i - d - 1..j - d - 1] == s[i..j];
  }

  /** The first part reaches up to the first bar. */
  lemma {:induction false} ListedFirst(s: string, part: string, i: nat, j: nat)
    requires '|' !in part && ListedAt(s, part, i, j) && i <= FirstBar(s)
    ensures i == 0 && j == FirstBar(s) && part == s[..FirstBar(s)]
  {
    assert forall k :: 0 <= k < |part| ==> part[k] in part && part[k] == s[i + k];
  }

  /** Splitting gives exactly the listed texts. */
  lemma {:induction false} SplitBarExact(s: string, part: string)
    ensures part in SplitBar(s) <==> Listed(s, part)
    decreases |s|
  {
    var d := FirstBar(s);
    assert ListedAt(s, s[..d], 0, d) && '|' !in s[..d];
    if d == |s| {
      assert s[..d] == s && SplitBar(s) == [s];
    } else {
      SplitBarExact(s[d + 1..], part);
      if Listed(s[d + 1..], part) {
        var i, j :| ListedAt(s[d + 1..], part, i, j);
        ListedLater(s, d, part, i, j);
      }
    }
    if Listed(s, part) {
      var i, j :| ListedAt(s, part, i, j);
      if i <= d {
        ListedFirst(s, part, i, j);
      } else {
        ListedEarlier(s, d, part, i, j);
      }
    }
  }

  predicate IsMissing(args: seq<Arg>, i: nat) {
    i >= |args| || args[i].Undefined?
  }

  predicate ParamSkips(args: seq<Arg>, rule: SkipParam) {
    || IsMissing(args, rule.index)
    || (args[rule.index].Scalar? && args[rule.index].isString && args[rule.index].text in SplitBar(rule.value))
  }

  predicate SkipsSingle(args: seq<Arg>, rules: seq<SkipParam>) {
    exists i :: 0 <= i < |rules| && ParamSkips(args, rules[i])
  }

  /** The string a field of a JSON object text holds; the last member of that name wins. */
  function Field(json: string, name: string): Option<string> {
    var v := ReadText(json);
    if v.Some? && v.value.JObj? then LastField(v.value.members, name) else None
  }

  function LastField(ms: seq<Member>, name: string): Option<string> {
    if ms == [] then None
    else
      var m := ms[|ms| - 1];
      if m.key != name then LastField(ms[..|ms| - 1], name)
      else if m.value.JStr? then Some(m.value.s)
      else None
  }

  /** Reading a field of a missing argument throws. */
  predicate FieldThrows(args: seq<Arg>, rule: SkipFields) {
    rule.fields != map[] && (IsMissing(args, rule.index) || args[rule.index] == Null)
  }

  predicate HoldsOneOf(actual: Option<string>, value: string) {
    actual.Some? && actual.value in SplitBar(value)
  }

  predicate FieldSkips(args: seq<Arg>, rule: SkipFields) {
    && rule.index < |args| && args[rule.index].Object?
    && exists name ::
      name in rule.fields && HoldsOneOf(Field(args[rule.index].json, name), rule.fields[name])
  }

  /** The rules are tried in order; the first that skips or throws decides. */
  function SkipsNamed(args: seq<Arg>, rules: seq<SkipFields>): Result<bool, ()> {
    if rules == [] then Ok(false)
    else if FieldThrows(args, rules[0]) then Err(())
    else if FieldSkips(args, rules[0]) then Ok(true)
    else SkipsNamed(args, rules[1..])
  }

  /** Caching goes ahead exactly when no rule skips and none throws, whatever the order of the rules. */
  lemma {:induction false} NamedIff(args: seq<Arg>, rules: seq<SkipFields>)
    ensures SkipsNamed(args, rules) == Ok(false) <==>
      forall i :: 0 <= i < |rules| ==> !FieldThrows(args, rules[i]) && !FieldSkips(args, rules[i])
  {
    if rules != [] {
      NamedIff(args, rules[1..]);
      if SkipsNamed(args, rules) == Ok(false) {
        forall i | 0 <= i < |rules| ensures !FieldThrows(args, rules[i]) && !FieldSkips(args, rules[i]) {
          assert i > 0 ==> rules[i] == rules[1..][i - 1];
        }
      } else if !FieldThrows(args, rules[0]) && !FieldSkips(args, rules[0]) {
        var i :| 0 <= i < |rules[1..]| && (FieldThrows(args, rules[1..][i]) || FieldSkips(args, rules[1..][i]));
        assert rules[1..][i] == rules[i + 1];
      }
    }
  }

  // ---------- which arguments forbid caching ----------

  /** The argument of a positional rule is left out or undefined, or a string on the rule's list. */
  ghost predicate PositionForbids(args: seq<Arg>, rule: SkipParam) {
    || rule.index >= |args| || args[rule.index] == Arg.Undefined
    || exists text: string :: args[rule.index] == Scalar(text, true) && Listed(rule.value, text)
  }

  /** The last member of that name holds this string. */
  ghost predicate HoldsString(ms: seq<Member>, name: string, text: string) {
    exists k :: 0 <= k < |ms| && ms[k] == Member(name, JStr(text)) && forall j :: k < j < |ms| ==> ms[j].key != name
  }

  /** The argument of a field rule is an object with a field that holds a string on that field's list. */
  ghost predicate FieldForbids(args: seq<Arg>, rule: SkipFields) {
    && rule.index < |args| && args[rule.index].Object?
    && exists ms, name, text: string ::
      && ReadText(args[rule.index].json) == Some(JObj(ms)) && HoldsString(ms, name, text)
      && name in rule.fields && Listed(rule.fields[name], text)
  }

  /** A field rule with fields reads from an argument that is left out, undefined or null. */
  ghost predicate FieldReadFails(args: seq<Arg>, rule: SkipFields) {
    rule.fields != map[] && (rule.index >= |args| || args[rule.index] == Arg.Undefined || args[rule.index] == Null)
  }

  lemma {:induction false} PositionIff(args: seq<Arg>, rule: SkipParam)
    ensures ParamSkips(args, rule) <==> PositionForbids(args, rule)
  {
    if rule.index < |args| && args[rule.index].Scalar? {
      SplitBarExact(rule.value, args[rule.index].text);
    }
  }

  lemma {:induction false} LastFieldExact(ms: seq<Member>, name: string, text: string)
    ensures LastField(ms, name) == Some(text) <==> HoldsString(ms, name, text)
  {
    if ms != [] {
      var init, m := ms[..|ms| - 1], ms[|ms| - 1];
      LastFieldExact(init, name, text);
      if m.key != name {
        if HoldsString(init, name, text) {
          var k :| 0 <= k < |init| && init[k] == Member(name, JStr(text)) && forall j :: k < j < |init| ==> init[j].key != name;
          assert ms[k] == Member(name, JStr(text)) && forall j :: k < j < |ms| ==> ms[j].key != name;
        }
        if HoldsString(ms, name, text) {
          var k :| 0 <= k < |ms| && ms[k] == Member(name, JStr(text)) && forall j :: k < j < |ms| ==> ms[j].key != name;
          assert init[k] == Member(name, JStr(text));
        }
      } else if m.value == JStr(text) {
        assert ms[|ms| - 1] == Member(name, JStr(text));
      }
    }
  }

  lemma {:induction false} FieldIff(args: seq<Arg>, rule: SkipFields)
    ensures FieldSkips(args, rule) <==> FieldForbids(args, rule)
  {
    if rule.index < |args| && args[rule.index].Object? {
      var json := args[rule.index].json;
      if FieldSkips(args, rule) {
        var name :| name in rule.fields && HoldsOneOf(Field(json, name), rule.fields[name]);
        var ms, text := ReadText(json).value.members, Field(json, name).value;
        LastFieldExact(ms, name, text);
        SplitBarExact(rule.fields[name], text);
        assert ReadText(json) == Some(JObj(ms));
      }
      if FieldForbids(args, rule) {
        var ms, name, text: string :| ReadText(json) == Some(JObj(ms)) && HoldsString(ms, name, text)
          && name in rule.fields && Listed(rule.fields[name], text);
        LastFieldExact(ms, name, text);
        SplitBarExact(rule.fields[name], text);
        assert HoldsOneOf(Field(json, name), rule.fields[name]);
      }
    }
  }

  /** No rule of either kind has anything to say about these arguments. */
  ghost predicate NoRuleConcerns(o: Options, args: seq<Arg>) {
    && (forall i :: 0 <= i < |o.skipParams| ==> !PositionForbids(args, o.skipParams[i]))
    && (forall i :: 0 <= i < |o.skipNamed| ==> !FieldForbids(args, o.skipNamed[i]) && !FieldReadFails(args, o.skipNamed[i]))
  }

  lemma {:induction false} SingleIff(args: seq<Arg>, rules: seq<SkipParam>)
    ensures SkipsSingle(args, rules) <==> exists i :: 0 <= i < |rules| && PositionForbids(args, rules[i])
  {
    forall i | 0 <= i < |rules| ensures ParamSkips(args, rules[i]) <==> PositionForbids(args, rules[i]) {
      PositionIff(args, rules[i]);
    }
  }

  lemma {:induction false} NamedRulesIff(args: seq<Arg>, rules: seq<SkipFields>)
    ensures SkipsNamed(args, rules) == Ok(false) <==>
      forall i :: 0 <= i < |rules| ==> !FieldForbids(args, rules[i]) && !FieldReadFails(args, rules[i])
  {
    NamedIff(args, rules);
    forall i | 0 <= i < |rules|
      ensures FieldSkips(args, rules[i]) <==> FieldForbids(args, rules[i])
      ensures FieldThrows(args, rules[i]) <==> FieldReadFails(args, rules[i])
    {
      FieldIff(args, rules[i]);
    }
  }

  /** A result is stored exactly when the method returned something truthy and no rule concerns the arguments. */
  lemma {:induction false} StoredIff(o: Options, result: Outcome, args: seq<Arg>)
    ensures Stored(o, result, args) <==> result.Returned? && result.value.truthy && NoRuleConcerns(o, args)
  {
    SingleIff(args, o.skipParams);
    NamedRulesIff(args, o.skipNamed);
  }

  /** A truthy result turns into an exception exactly when a field rule that comes into play reads from nothing. */
  lemma {:induction false} ThrowsIff(o: Options, v: Value, args: seq<Arg>)
    ensures Executed(o, Returned(v), args) == Threw <==> (
      && v.truthy && (forall i :: 0 <= i < |o.skipParams| ==> !PositionForbids(args, o.skipParams[i]))
      && exists i :: 0 <= i < |o.skipNamed| && FieldReadFails(args, o.skipNamed[i])
           && forall j :: 0 <= j < i ==> !FieldForbids(args, o.skipNamed[j]))
    ensures Executed(o, Returned(v), args) != Threw ==> Executed(o, Returned(v), args) == Returned(v)
  {
    SingleIff(args, o.skipParams);
    NamedThrows(args, o.skipNamed);
  }

  ghost predicate FirstToSpeak(args: seq<Arg>, rules: seq<SkipFields>, i: int) {
    0 <= i < |rules| && FieldReadFails(args, rules[i]) && forall j :: 0 <= j < i ==> !FieldForbids(args, rules[j])
  }

  lemma {:induction false} NamedThrows(args: seq<Arg>, rules: seq<SkipFields>)
    ensures SkipsNamed(args, rules).Err? <==>
      exists i :: 0 <= i < |rules| && FieldReadFails(args, rules[i]) && forall j :: 0 <= j < i ==> !FieldForbids(args, rules[j])
  {
    if rules != [] {
      FieldIff(args, rules[0]);
      NamedThrows(args, rules[1..]);
      if i :| FirstToSpeak(args, rules, i) {
        if i > 0 && !FieldThrows(args, rules[0]) {
          assert FieldReadFails(args, rules[1..][i - 1]);
          assert forall j :: 0 <= j < i - 1 ==> rules[1..][j] == rules[j + 1];
        }
      }
      if i :| FirstToSpeak(args, rules[1..], i) {
        if !FieldThrows(args, rules[0]) && !FieldSkips(args, rules[0]) {
          assert rules[i + 1] == rules[1..][i];
          forall j | 0 <= j < i + 1 ensures !FieldForbids(args, rules[j]) {
            assert j > 0 ==> rules[j] == rules[1..][j - 1];
          }
          assert FirstToSpeak(args, rules, i + 1);
        }
      }
      if FieldThrows(args, rules[0]) {
        assert FirstToSpeak(args, rules, 0);
      }
    }
  }

  // ---------- the wrapper ----------

  type Store = map<string, Value>

  /** What a call that executes the method ends with. */
  function Executed(o: Options, result: Outcome, args: seq<Arg>): Outcome {
    if result.Returned? && result.value.truthy && !SkipsSingle(args, o.skipParams) && SkipsNamed(args, o.skipNamed).Err?
    then Threw
    else result
  }

  /** Whether the result of an execution is stored. */
  predicate Stored(o: Options, result: Outcome, args: seq<Arg>) {
    && result.Returned? && result.value.truthy
    && !SkipsSingle(args, o.skipParams) && SkipsNamed(args, o.skipNamed) == Ok(false)
  }

  /** The cache client, which all decorated methods share. */
  class CacheService {
    var store: Store

    constructor ()
      ensures store == map[]
    {
      store := map[];
    }

    /** Entries expire at any time. */
    method Expire(keys: set<string>)
      modifies this
      ensures store == old(store) - keys
    {
      store := store - keys;
    }
  }

  class Decorated {
    const methodName: string
    const options: Options
    const cacheService: CacheService

    constructor (methodName: string, options: Options, cacheService: CacheService)
      ensures this.methodName == methodName && this.options == options && this.cacheService == cacheService
    {
      this.methodName, this.options, this.cacheService := methodName, options, cacheService;
    }

    /** `target` is the decorated method. */
    method Call(target: seq<Arg> -> Outcome, args: seq<Arg>) returns (outcome: Outcome)
      modifies cacheService
      ensures outcome == CallOutcome(methodName, options, target(args), old(cacheService.store), args)
      ensures cacheService.store == CallStore(methodName, options, target(args), old(cacheService.store), args)
    {
      var cacheKey := GenerateCacheKey(methodName, args);
      if cacheKey in cacheService.store && cacheService.store[cacheKey].truthy {
        return Returned(cacheService.store[cacheKey]);
      }
      outcome := target(args);
      if outcome.Threw? {
        return;
      }
      if outcome.value.truthy && !SkipsSingle(args, options.skipParams) {
        var named := SkipsNamed(args, options.skipNamed);
        if named.Err? {
          return Threw;
        }
        if !named.value {
          cacheService.store := cacheService.store[cacheKey := outcome.value];
        }
      }
    }
  }

  predicate Hit(m: string, store: Store, args: seq<Arg>) {
    Key(m, args) in store && store[Key(m, args)].truthy
  }

  function CallOutcome(m: string, o: Options, result: Outcome, store: Store, args: seq<Arg>): Outcome {
    if Hit(m, store, args) then Returned(store[Key(m, args)]) else Executed(o, result, args)
  }

  function CallStore(m: string, o: Options, result: Outcome, store: Store, args: seq<Arg>): Store {
    if !Hit(m, store, args) && Stored(o, result, args) then store[Key(m, args) := result.value] else store
  }

  // ---------- runs ----------

  /** The decorated methods: by name, the rules of each and what it does when it is executed. */
  datatype Api = Api(options: string -> Options, execute: (string, seq<Arg>) -> Outcome)

  /** Calls of any of the methods, and expiry, all on one store. */
  datatype Event = Called(name: string, args: seq<Arg>) | Expired(keys: set<string>)

  /** How a call ends without a cache. */
  ghost function Uncached(api: Api, m: string, args: seq<Arg>): Outcome {
    Executed(api.options(m), api.execute(m, args), args)
  }

  ghost predicate IsStored(api: Api, m: string, args: seq<Arg>) {
    Stored(api.options(m), api.execute(m, args), args)
  }

  ghost function StoreNext(api: Api, store: Store, e: Event): Store {
    match e
    case Called(m, args) => CallStore(m, api.options(m), api.execute(m, args), store, args)
    case Expired(keys) => store - keys
  }

  ghost function StoreAfter(api: Api, store: Store, run: seq<Event>): Store
    decreases |run|
  {
    if run == [] then store else StoreAfter(api, StoreNext(api, store, run[0]), run[1..])
  }

  /** Every call of the run ends as if there were no cache. */
  ghost predicate Transparent(api: Api, store: Store, run: seq<Event>)
    decreases |run|
  {
    run != [] ==>
      && (run[0].Called? ==>
            CallOutcome(run[0].name, api.options(run[0].name), api.execute(run[0].name, run[0].args), store, run[0].args)
              == Uncached(api, run[0].name, run[0].args))
      && Transparent(api, StoreNext(api, store, run[0]), run[1..])
  }

  type Domain = (string, seq<Arg>) -> bool

  /** The calls of the run are all in `dom`. */
  ghost predicate Over(run: seq<Event>, dom: Domain) {
    forall i :: 0 <= i < |run| && run[i].Called? ==> dom(run[i].name, run[i].args)
  }

  /** No call that is stored shares its key with a call, of whatever method, that should end differently. */
  ghost predicate CollisionFree(api: Api, dom: Domain) {
    forall m, a, n, b :: dom(m, a) && dom(n, b) && Key(m, a) == Key(n, b) && IsStored(api, m, a) ==>
      Uncached(api, n, b) == api.execute(m, a)
  }

  /** The entry was stored by this call. */
  ghost predicate StoredBy(api: Api, dom: Domain, store: Store, k: string, m: string, a: seq<Arg>)
    requires k in store
  {
    dom(m, a) && Key(m, a) == k && IsStored(api, m, a) && Returned(store[k]) == api.execute(m, a)
  }

  /** Each entry was stored by a call of the domain. */
  ghost predicate StoreOk(api: Api, dom: Domain, store: Store) {
    forall k :: k in store ==> exists m, a :: StoredBy(api, dom, store, k, m, a)
  }

  lemma {:induction false} CallKeepsStore(api: Api, dom: Domain, store: Store, m: string, args: seq<Arg>)
    requires StoreOk(api, dom, store) && dom(m, args)
    ensures StoreOk(api, dom, StoreNext(api, store, Called(m, args)))
  {
    var after := StoreNext(api, store, Called(m, args));
    forall k | k in after ensures exists n, a :: StoredBy(api, dom, after, k, n, a) {
      if k in store && after[k] == store[k] {
        var n, a :| StoredBy(api, dom, store, k, n, a);
        assert StoredBy(api, dom, after, k, n, a);
      } else {
        assert StoredBy(api, dom, after, k, m, args);
      }
    }
  }

  lemma {:induction false} ExpiryKeepsStore(api: Api, dom: Domain, store: Store, keys: set<string>)
    requires StoreOk(api, dom, store)
    ensures StoreOk(api, dom, store - keys)
  {
    forall k | k in store - keys ensures exists m, a :: StoredBy(api, dom, store - keys, k, m, a) {
      var m, a :| StoredBy(api, dom, store, k, m, a);
      assert StoredBy(api, dom, store - keys, k, m, a);
    }
  }

  lemma {:induction false} NextStoreOk(api: Api, dom: Domain, store: Store, run: seq<Event>)
    requires run != [] && StoreOk(api, dom, store) && Over(run, dom)
    ensures StoreOk(api, dom, StoreNext(api, store, run[0])) && Over(run[1..], dom)
  {
    match run[0] {
      case Called(m, args) => CallKeepsStore(api, dom, store, m, args);
      case Expired(keys) => ExpiryKeepsStore(api, dom, store, keys);
    }
  }

  lemma {:induction false} HitIsRight(api: Api, dom: Domain, store: Store, m: string, args: seq<Arg>)
    requires CollisionFree(api, dom) && StoreOk(api, dom, store) && dom(m, args) && Hit(m, store, args)
    ensures Returned(store[Key(m, args)]) == Uncached(api, m, args)
  {
    var n, a :| StoredBy(api, dom, store, Key(m, args), n, a);
  }

  lemma {:induction false} RunTransparent(api: Api, dom: Domain, store: Store, run: seq<Event>)
    requires CollisionFree(api, dom) && StoreOk(api, dom, store) && Over(run, dom)
    ensures Transparent(api, store, run)
    decreases |run|
  {
    if run != [] {
      NextStoreOk(api, dom, store, run);
      if run[0].Called? && Hit(run[0].name, store, run[0].args) {
        HitIsRight(api, dom, store, run[0].name, run[0].args);
      }
      RunTransparent(api, dom, StoreNext(api, store, run[0]), run[1..]);
    }
  }

  /** Two calls with the same key, the first stored: the second is answered with the first's result. */
  lemma {:induction false} CollisionShows(api: Api, m: string, a: seq<Arg>, n: string, b: seq<Arg>)
    requires Key(m, a) == Key(n, b) && IsStored(api, m, a) && Uncached(api, n, b) != api.execute(m, a)
    ensures !Transparent(api, map[], [Called(m, a), Called(n, b)])
  {
    var run := [Called(m, a), Called(n, b)];
    assert run[1..] == [Called(n, b)];
    assert StoreNext(api, map[], run[0]) == map[Key(m, a) := api.execute(m, a).value];
  }

  /** The cache is transparent in every run over a domain exactly when the domain is collision free. */
  lemma {:induction false} TransparentIff(api: Api, dom: Domain)
    ensures (forall run :: Over(run, dom) ==> Transparent(api, map[], run)) <==> CollisionFree(api, dom)
  {
    if CollisionFree(api, dom) {
      forall run | Over(run, dom) ensures Transparent(api, map[], run) {
        RunTransparent(api, dom, map[], run);
      }
    } else {
      var m, a, n, b :| dom(m, a) && dom(n, b) && Key(m, a) == Key(n, b) && IsStored(api, m, a)
        && Uncached(api, n, b) != api.execute(m, a);
      CollisionShows(api, m, a, n, b);
      assert Over([Called(m, a), Called(n, b)], dom);
    }
  }

  // ---------- keys that do not collide ----------

  ghost predicate NoUnderscore(s: string) {
    forall i :: 0 <= i < |s| ==> s[i] != '_'
  }

  lemma {:induction false} FirstUnderscore(x: string, xs: seq<string>)
    requires NoUnderscore(x)
    ensures var k := x + KeyTail(xs); (forall i :: 0 <= i < |x| ==> k[i] != '_') && (|k| > |x| ==> k[|x|] == '_')
  {}

  /** Underscore-free parts can be told apart in the key. */
  lemma {:induction false} KeyParts(x: string, xs: seq<string>, y: string, ys: seq<string>)
    requires NoUnderscore(x) && NoUnderscore(y)
    requires (forall i :: 0 <= i < |xs| ==> NoUnderscore(xs[i])) && (forall i :: 0 <= i < |ys| ==> NoUnderscore(ys[i]))
    requires x + KeyTail(xs) == y + KeyTail(ys)
    ensures x == y && xs == ys
    decreases |xs|
  {
    var k := x + KeyTail(xs);
    FirstUnderscore(x, xs);
    FirstUnderscore(y, ys);
    assert x == k[..|x|] == y;
    assert KeyTail(xs) == k[|x|..] == KeyTail(ys);
    if xs != [] && ys != [] {
      var t := KeyTail(xs);
      assert t[1..] == xs[0] + KeyTail(xs[1..]) && t[1..] == ys[0] + KeyTail(ys[1..]);
      KeyParts(xs[0], xs[1..], ys[0], ys[1..]);
      assert xs == [xs[0]] + xs[1..] && ys == [ys[0]] + ys[1..];
    }
  }

  /** What a parameter may hold besides being left out. */
  datatype Kind = DetailsKind | StringKind | OtherKind | ObjectKind

  predicate IsAbsent(a: Arg) {
    a.Undefined? || a.Null?
  }

  /** A typed parameter; no value is written like an absent one, and none contains an underscore. */
  ghost predicate HasKind(a: Arg, k: Kind) {
    match k
    case DetailsKind => a == Details
    case StringKind => IsAbsent(a) || (a.Scalar? && a.isString && Plain(a))
    case OtherKind => IsAbsent(a) || (a.Scalar? && !a.isString && Plain(a))
    case ObjectKind => IsAbsent(a) || (a.Object? && Plain(a))
  }

  ghost predicate Plain(a: Arg) {
    Render(a) != "undefined" && Render(a) != "null" && NoUnderscore(Render(a))
  }

  /** The arguments of a call; what is left out at the end is not the request details. */
  ghost predicate Typed(sig: seq<Kind>, args: seq<Arg>) {
    && |args| <= |sig|
    && (forall i :: 0 <= i < |args| ==> HasKind(args[i], sig[i]))
    && (forall i :: |args| <= i < |sig| ==> !sig[i].DetailsKind?)
  }

  lemma {:induction false} RenderedTyped(sig: seq<Kind>, args: seq<Arg>)
    requires Typed(sig, args)
    ensures forall i :: 0 <= i < |Rendered(args)| ==> NoUnderscore(Rendered(args)[i])
  {
    if args != [] {
      RenderedTyped(sig[1..], args[1..]);
      assert HasKind(args[0], sig[0]);
    }
  }

  lemma {:induction false} RenderedHead(sig: seq<Kind>, a: seq<Arg>)
    requires Typed(sig, a) && a != []
    ensures Typed(sig[1..], a[1..]) && HasKind(a[0], sig[0])
    ensures Rendered(a) == if sig[0].DetailsKind? then Rendered(a[1..]) else [Render(a[0])] + Rendered(a[1..])
  {
    assert HasKind(a[0], sig[0]);
    assert [] + Rendered(a[1..]) == Rendered(a[1..]);
  }

  lemma {:induction false} SameRender(k: Kind, x: Arg, y: Arg)
    requires HasKind(x, k) && HasKind(y, k) && Render(x) == Render(y)
    ensures x == y
  {}

  lemma {:induction false} RenderedDetermines(sig: seq<Kind>, a: seq<Arg>, b: seq<Arg>)
    requires Typed(sig, a) && Typed(sig, b) && Rendered(a) == Rendered(b)
    ensures a == b
  {
    if a != [] {
      RenderedHead(sig, a);
    }
    if b != [] {
      RenderedHead(sig, b);
    }
    if a != [] && b != [] {
      if !sig[0].DetailsKind? {
        assert Rendered(a)[0] == Render(a[0]) && Rendered(b)[0] == Render(b[0]);
        assert Rendered(a)[1..] == Rendered(a[1..]) && Rendered(b)[1..] == Rendered(b[1..]);
        SameRender(sig[0], a[0], b[0]);
      }
      RenderedDetermines(sig[1..], a[1..], b[1..]);
      assert a == [a[0]] + a[1..] && b == [b[0]] + b[1..];
    }
  }

  /** The key is injective: across methods with their own signatures, on underscore-free arguments. */
  lemma {:induction false} KeyInjective(m: string, n: string, sigs: string -> seq<Kind>, a: seq<Arg>, b: seq<Arg>)
    requires NoUnderscore(m) && NoUnderscore(n) && Typed(sigs(m), a) && Typed(sigs(n), b) && Key(m, a) == Key(n, b)
    ensures m == n && a == b
  {
    RenderedTyped(sigs(m), a);
    RenderedTyped(sigs(n), b);
    KeyParts(m, Rendered(a), n, Rendered(b));
    RenderedDetermines(sigs(m), a, b);
  }

  /** Calls of methods without underscores in their names, with typed underscore-free arguments. */
  ghost predicate PlainCalls(dom: Domain, sigs: string -> seq<Kind>) {
    forall m, a :: dom(m, a) ==> NoUnderscore(m) && Typed(sigs(m), a)
  }

  /** Cache transparency: with such calls of any number of methods every call of every run is unaffected. */
  lemma {:induction false} CacheTransparency(api: Api, sigs: string -> seq<Kind>, dom: Domain, run: seq<Event>)
    requires PlainCalls(dom, sigs) && Over(run, dom)
    ensures Transparent(api, map[], run)
  {
    forall m, a, n, b | dom(m, a) && dom(n, b) && Key(m, a) == Key(n, b) && IsStored(api, m, a)
      ensures Uncached(api, n, b) == api.execute(m, a)
    {
      KeyInjective(m, n, sigs, a, b);
    }
    RunTransparent(api, dom, map[], run);
  }

  lemma {:induction false} RunStoreOk(api: Api, dom: Domain, store: Store, run: seq<Event>)
    requires StoreOk(api, dom, store) && Over(run, dom)
    ensures StoreOk(api, dom, StoreAfter(api, store, run))
    decreases |run|
  {
    if run != [] {
      NextStoreOk(api, dom, store, run);
      RunStoreOk(api, dom, StoreNext(api, store, run[0]), run[1..]);
    }
  }

  /** A call that a rule excludes from caching executes again after every run. */
  lemma {:induction false} SkippedAlwaysExecutes(api: Api, sigs: string -> seq<Kind>, dom: Domain, run: seq<Event>,
                                                 m: string, args: seq<Arg>)
    requires PlainCalls(dom, sigs) && Over(run, dom) && dom(m, args)
    requires !NoRuleConcerns(api.options(m), args)
    ensures Key(m, args) !in StoreAfter(api, map[], run)
    ensures !Hit(m, StoreAfter(api, map[], run), args)
  {
    RunStoreOk(api, dom, map[], run);
    StoredIff(api.options(m), api.execute(m, args), args);
    var store := StoreAfter(api, map[], run);
    if Key(m, args) in store {
      var n, a :| StoredBy(api, dom, store, Key(m, args), n, a);
      KeyInjective(n, m, sigs, a, args);
      assert false;
    }
  }

  /** A truthy result whose arguments no rule concerns is stored, and the next call is answered with it. */
  lemma {:induction false} UnconcernedIsCached(api: Api, store: Store, m: string, args: seq<Arg>)
    requires api.execute(m, args).Returned? && api.execute(m, args).value.truthy && NoRuleConcerns(api.options(m), args)
    ensures var after := StoreNext(api, store, Called(m, args)); Hit(m, after, args)
    ensures !Hit(m, store, args) ==>
      StoreNext(api, store, Called(m, args)) == store[Key(m, args) := api.execute(m, args).value]
  {
    StoredIff(api.options(m), api.execute(m, args), args);
  }

  /** The rule of `getBalance`: the result for the latest block is never stored. */
  lemma {:induction false} LatestIsForbidden(address: Arg)
    ensures PositionForbids([address, Scalar("latest", true)], SkipParam(1, "latest|pending|finalized|safe"))
  {
    assert ListedAt("latest|pending|finalized|safe", "latest", 0, 6);
  }

  /** A method that returns the text of its first argument. */
  ghost function Echo(): Api {
    Api(m => Options([], []), (m, args) => Returned(Value(if args == [] then "" else Render(args[0]), true)))
  }

  /** With underscores the key is ambiguous, and one call can be answered with another's result. */
  lemma {:induction false} UnderscoreCollision(m: string)
    ensures var a, b := [Scalar("x_y", true), Scalar("z", true)], [Scalar("x", true), Scalar("y_z", true)];
      Key(m, a) == Key(m, b) && !Transparent(Echo(), map[], [Called(m, a), Called(m, b)])
  {
    var a, b := [Scalar("x_y", true), Scalar("z", true)], [Scalar("x", true), Scalar("y_z", true)];
    TwoScalars("x_y", "z");
    TwoScalars("x", "y_z");
    assert "_" + "x_y" + ("_" + "z") == "_" + "x" + ("_" + "y_z");
    CollisionShows(Echo(), m, a, m, b);
  }

  lemma {:induction false} TwoScalars(x: string, y: string)
    ensures KeyTail(Rendered([Scalar(x, true), Scalar(y, true)])) == "_" + x + ("_" + y)
  {
    var args := [Scalar(x, true), Scalar(y, true)];
    assert args[1..] == [Scalar(y, true)] && args[1..][1..] == [];
    assert Rendered(args[1..]) == [y] by { assert Rendered([]) == []; }
    assert Rendered(args) == [x, y] && [x, y][1..] == [y] && [y][1..] == [];
    assert KeyTail([y]) == "_" + y;
  }
}

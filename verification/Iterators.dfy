/** The iterator class: where its values come from, and when producing them raises something other than
    a node error. */
module Iterators {
  import opened Wrappers
  import opened Strings
  import opened Json
  import opened Paths
  import opened References

  /** A node error, or any other exception. */
  datatype PlanError = Reported | Unexpected

  datatype Source =
    | FromArray(given: Value)
    | FromRange(start: int, end: int, step: int)
    | FromUpstream(field: Option<string>)

  // ---------------------------------------------------------------- the validated config

  function Setting(config: Value, key: string): Value {
    if config.Dict? && Lookup(config.entries, key).Some? then Lookup(config.entries, key).value else Null
  }

  function IntOr(v: Value, default: int): int {
    if v.Int? then v.n else default
  }

  /** `mode` and the settings that go with it. */
  function ReadSource(config: Value): Source {
    var mode := Setting(config, "mode");
    if mode == Str("array") then FromArray(Setting(config, "array"))
    else if mode == Str("range") then
      var range := Setting(config, "range");
      FromRange(IntOr(Setting(range, "start"), 0), IntOr(Setting(range, "end"), 0), IntOr(Setting(range, "step"), 1))
    else FromUpstream(if Setting(config, "field").Str? then Some(Setting(config, "field").text) else None)
  }

  /** `fan_in` is keyed; the default is concat. */
  predicate ReadKeyed(config: Value) {
    Setting(config, "fan_in") == Str("keyed")
  }

  /** `max_concurrency`, if it is given. */
  function ReadCap(config: Value): Option<nat> {
    var cap := Setting(config, "max_concurrency");
    if cap.Int? && cap.n > 0 then Some(cap.n) else None
  }

  // ---------------------------------------------------------------- the values

  /** Python's `list(range(start, end, step))`. */
  function RangeValues(start: int, end: int, step: int): seq<Value>
    requires step != 0
    decreases if step > 0 then end - start else start - end
  {
    if (step > 0 && start >= end) || (step < 0 && start <= end) then []
    else [Int(start)] + RangeValues(start + step, end, step)
  }

  /** One value per record, at a path. */
  function Extract(records: Records, path: seq<string>): Result<seq<Value>, PlanError> {
    if records == [] then Ok([])
    else
      match Extract(records[..|records| - 1], path)
      case Err(e) => Err(e)
      case Ok(values) =>
        match Get(records[|records| - 1], path)
        case Ok(v) => Ok(values + [v])
        case Err(NotFound) => Err(Reported)
        case Err(BadInteger) => Err(Unexpected)
  }

  /** `get_values`. */
  function GetValues(source: Source, inputs: map<string, seq<Records>>): Result<seq<Value>, PlanError> {
    match source
    case FromArray(given) => if given.List? then Ok(given.items) else Err(Reported)
    case FromRange(start, end, step) => if step != 0 then Ok(RangeValues(start, end, step)) else Err(Unexpected)
    case FromUpstream(field) =>
      if "in" !in inputs || inputs["in"] == [] then Err(Reported)
      else if field.None? then Ok(inputs["in"][0])
      else Extract(inputs["in"][0], SplitPath(field.value))
  }

  lemma {:induction false} ExtractStops(records: Records, path: seq<string>, i: nat)
    requires i <= |records| && Extract(records[..i], path).Err?
    ensures Extract(records, path) == Extract(records[..i], path)
    decreases |records| - i
  {
    if i == |records| {
      assert records[..i] == records;
    } else {
      assert records[..i + 1][..i] == records[..i];
      ExtractStops(records, path, i + 1);
    }
  }

  /** The loop over the upstream records. */
  method ExtractField(records: Records, path: seq<string>) returns (r: Result<seq<Value>, PlanError>)
    ensures r == Extract(records, path)
  {
    var values := [];
    for i := 0 to |records|
      invariant Extract(records[..i], path) == Ok(values)
    {
      assert records[..i + 1][..i] == records[..i];
      var value := GetPath(records[i], path);
      if value.Err? {
        ExtractStops(records, path, i + 1);
        return Err(if value.error.NotFound? then Reported else Unexpected);
      }
      values := values + [value.value];
    }
    assert records[..|records|] == records;
    return Ok(values);
  }

  // ---------------------------------------------------------------- what a range holds

  /** The `k`-th value is `k` steps from the start, and the values are exactly those before the end. */
  lemma {:induction false} RangeValuesAre(start: int, end: int, step: int, k: nat)
    requires step != 0
    ensures k < |RangeValues(start, end, step)| <==>
              if step > 0 then start + k * step < end else start + k * step > end
    ensures k < |RangeValues(start, end, step)| ==> RangeValues(start, end, step)[k] == Int(start + k * step)
    decreases if step > 0 then end - start else start - end
  {
    var values := RangeValues(start, end, step);
    if values != [] && k > 0 {
      RangeValuesAre(start + step, end, step, k - 1);
      assert start + step + (k - 1) * step == start + k * step;
    } else if values == [] {
      assert step > 0 ==> k * step >= 0;
      assert step < 0 ==> k * step <= 0;
    }
  }

  // ---------------------------------------------------------------- when it raises

  lemma {:induction false} ExtractNeverUnexpected(records: Records, path: seq<string>)
    requires forall i :: 0 <= i < |records| ==> Get(records[i], path) != Err(BadInteger)
    ensures Extract(records, path) != Err(Unexpected)
  {
    if records != [] {
      ExtractNeverUnexpected(records[..|records| - 1], path);
    }
  }

  lemma OneRecordRaises(record: Value, path: seq<string>)
    requires Get(record, path) == Err(BadInteger)
    ensures Extract([record], path) == Err(Unexpected)
  {
    assert [record][..0] == [];
  }

  lemma WellIndexedExtract(records: Records, path: seq<string>)
    requires NoneRejected(path)
    ensures Extract(records, path) != Err(Unexpected)
  {
    forall i | 0 <= i < |records| ensures Get(records[i], path) != Err(BadInteger) {
      GetNeverRaises(records[i], path);
    }
    ExtractNeverUnexpected(records, path);
  }

  /** A field raises on some records exactly when `int` rejects one of its segments. */
  lemma FieldRaisesExactly(path: seq<string>)
    ensures (exists records :: Extract(records, path) == Err(Unexpected)) <==> !NoneRejected(path)
  {
    if NoneRejected(path) {
      forall records ensures Extract(records, path) != Err(Unexpected) {
        WellIndexedExtract(records, path);
      }
    } else {
      var i :| 0 <= i < |path| && Rejected(path[i]);
      var v := SomeGetRaises(path, i);
      OneRecordRaises(v, path);
    }
  }

  predicate AllDicts(records: Records) {
    forall i :: 0 <= i < |records| ==> records[i].Dict?
  }

  lemma DictNeverRaisesFirst(record: Value, path: seq<string>)
    requires record.Dict? && path != [] && NoneRejected(path[1..])
    ensures Get(record, path) != Err(BadInteger)
  {
    match Fetch(record, SlotOf(record, path[0]))
    case Ok(child) => GetNeverRaises(child, path[1..]);
    case Err(_) =>
  }

  lemma DictRaises(path: seq<string>) returns (record: Value)
    requires path != [] && !NoneRejected(path[1..])
    ensures record.Dict? && Get(record, path) == Err(BadInteger)
  {
    var i :| 0 <= i < |path[1..]| && Rejected(path[1..][i]);
    var inner := SomeGetRaises(path[1..], i);
    record := Dict([Entry(path[0], inner)]);
    assert Get(record, path) == Get(inner, path[1..]);
  }

  /** On records that are dicts the first segment is a key, so only the later ones count. */
  lemma FieldRaisesOnDictsExactly(path: seq<string>)
    requires path != []
    ensures (exists records :: AllDicts(records) && Extract(records, path) == Err(Unexpected)) <==>
            !NoneRejected(path[1..])
  {
    if NoneRejected(path[1..]) {
      forall records | AllDicts(records) ensures Extract(records, path) != Err(Unexpected) {
        forall i | 0 <= i < |records| ensures Get(records[i], path) != Err(BadInteger) {
          DictNeverRaisesFirst(records[i], path);
        }
        ExtractNeverUnexpected(records, path);
      }
    } else {
      var record := DictRaises(path);
      OneRecordRaises(record, path);
      assert AllDicts([record]);
    }
  }

  /** Values never raise unexpectedly when the step is not zero and the field is well indexed. */
  predicate CalmSource(source: Source) {
    match source
    case FromArray(_) => true
    case FromRange(_, _, step) => step != 0
    case FromUpstream(field) => field.None? || NoneRejected(SplitPath(field.value))
  }

  lemma CalmSourceNeverRaises(source: Source, inputs: map<string, seq<Records>>)
    requires CalmSource(source)
    ensures GetValues(source, inputs) != Err(Unexpected)
  {
    if source.FromUpstream? && source.field.Some? && "in" in inputs && inputs["in"] != [] {
      WellIndexedExtract(inputs["in"][0], SplitPath(source.field.value));
    }
  }

  // ---------------------------------------------------------------- told from the config before the run

  /** A string setting that no reference changes, as it will be once resolved. */
  predicate PlainText(v: Value) {
    v.Str? && RefsInText(v.text) == []
  }

  function PlainTextOf(v: Value): string
    requires PlainText(v)
  {
    if StartsWith(v.text, "$$") then v.text[1..] else v.text
  }

  /** The config cannot name a field with an index that `int` rejects: it names none, or a plain one
      without such an index, or its mode takes no field. */
  predicate FieldWellIndexed(config: Value) {
    && config.Dict?
    && var field, mode := Setting(config, "field"), Setting(config, "mode");
       || !field.Str?
       || (PlainText(field) && NoneRejected(SplitPath(PlainTextOf(field))))
       || (PlainText(mode) && PlainTextOf(mode) in {"array", "range"})
  }

  /** Looking a setting up commutes with resolving. */
  lemma {:induction false} LookupResolved(entries: seq<Entry>, ctx: Context, render: Value -> string, key: string)
    requires ResolveEntries(entries, ctx, render).Ok?
    ensures var es := ResolveEntries(entries, ctx, render).value;
            && (Lookup(entries, key).None? <==> Lookup(es, key).None?)
            && (Lookup(entries, key).Some? ==>
                  ResolveConfig(Lookup(entries, key).value, ctx, render) == Ok(Lookup(es, key).value))
  {
    if entries != [] && entries[0].key != key {
      LookupResolved(entries[1..], ctx, render, key);
    }
  }

  lemma SettingResolved(config: Value, ctx: Context, render: Value -> string, key: string)
    requires config.Dict? && ResolveConfig(config, ctx, render).Ok?
    ensures ResolveConfig(Setting(config, key), ctx, render) ==
            Ok(Setting(ResolveConfig(config, ctx, render).value, key))
  {
    LookupResolved(config.entries, ctx, render, key);
  }

  lemma PlainTextResolves(v: Value, ctx: Context, render: Value -> string)
    requires PlainText(v)
    ensures ResolveConfig(v, ctx, render) == Ok(Str(PlainTextOf(v)))
  {
    NoReferencesOnlyUnescapes(v, ctx, render);
  }

  lemma OthersStayOthers(v: Value, ctx: Context, render: Value -> string)
    requires !v.Str? && ResolveConfig(v, ctx, render).Ok?
    ensures !ResolveConfig(v, ctx, render).value.Str?
  {
  }

  /** The field that a config names, if its mode takes one. */
  function FieldOf(config: Value): Option<string> {
    match ReadSource(config) case FromUpstream(field) => field case _ => None
  }

  /** Whatever its references resolve to, such a config names no field that raises. */
  lemma WellIndexedFieldStays(config: Value, ctx: Context, render: Value -> string)
    requires FieldWellIndexed(config) && ResolveConfig(config, ctx, render).Ok?
    ensures var field := FieldOf(ResolveConfig(config, ctx, render).value);
            field.Some? ==> NoneRejected(SplitPath(field.value))
  {
    var field, mode := Setting(config, "field"), Setting(config, "mode");
    SettingResolved(config, ctx, render, "field");
    SettingResolved(config, ctx, render, "mode");
    if !field.Str? {
      OthersStayOthers(field, ctx, render);
    } else if PlainText(field) && NoneRejected(SplitPath(PlainTextOf(field))) {
      PlainTextResolves(field, ctx, render);
    } else {
      PlainTextResolves(mode, ctx, render);
    }
  }
}

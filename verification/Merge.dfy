/** The merge node: the hash join against the nested-loop join it stands for, how two records are
    combined, and duplicate removal. */
module Merge {
  import opened Wrappers
  import opened Json
  import opened Paths

  type Record = seq<Entry>

  datatype How = Inner | Left | Outer

  datatype JoinConfig = JoinConfig(keys: seq<string>, how: How, suffix: string)

  /** A part of a join key. Numbers and booleans compare by value; containers by their encoding. */
  datatype KeyPart = NullPart | NumberPart(r: real) | TextPart(text: string)

  type Key = seq<KeyPart>

  /** `_key_of` with the container encodings left uninterpreted: None when a key is missing. */
  function KeyOf(encode: Value -> string, record: Record, keys: seq<string>): Option<Key> {
    if keys == [] then Some([])
    else
      match KeyOf(encode, record, keys[..|keys| - 1])
      case None => None
      case Some(parts) =>
        match Get(Dict(record), SplitPath(keys[|keys| - 1]))
        case Err(_) => None
        case Ok(v) => Some(parts + [PartOf(encode, v)])
  }

  function PartOf(encode: Value -> string, v: Value): KeyPart {
    match v
    case Null => NullPart
    case Bool(b) => NumberPart(if b then 1.0 else 0.0)
    case Int(n) => NumberPart(n as real)
    case Float(r) => NumberPart(r)
    case Str(s) => TextPart(s)
    case _ => TextPart(encode(v))
  }

  /** Reading the key raises: the first key path that gives no value has an index that `int` rejects. */
  predicate KeyRaises(record: Record, keys: seq<string>) {
    keys != [] &&
    (KeyRaises(record, keys[..|keys| - 1])
     || (KeyPresent(record, keys[..|keys| - 1]) && Get(Dict(record), SplitPath(keys[|keys| - 1])) == Err(BadInteger)))
  }

  predicate KeyPresent(record: Record, keys: seq<string>) {
    forall i :: 0 <= i < |keys| ==> Get(Dict(record), SplitPath(keys[i])).Ok?
  }

  lemma {:induction false} PresentKeyIsSome(encode: Value -> string, record: Record, keys: seq<string>)
    ensures KeyOf(encode, record, keys).Some? <==> KeyPresent(record, keys)
    ensures KeyPresent(record, keys) ==> !KeyRaises(record, keys)
  {
    if keys != [] {
      PresentKeyIsSome(encode, record, keys[..|keys| - 1]);
    }
  }

  lemma {:induction false} RaisingSticks(record: Record, keys: seq<string>, i: nat)
    requires i <= |keys| && KeyRaises(record, keys[..i])
    ensures KeyRaises(record, keys)
    decreases |keys| - i
  {
    if i == |keys| {
      assert keys[..i] == keys;
    } else {
      assert keys[..i + 1][..i] == keys[..i];
      RaisingSticks(record, keys, i + 1);
    }
  }

  /** A key path that is plainly missing decides: what follows is not read. */
  lemma {:induction false} MissingDecides(record: Record, keys: seq<string>, i: nat, n: nat)
    requires i < n <= |keys| && KeyPresent(record, keys[..i]) && Get(Dict(record), SplitPath(keys[i])) == Err(NotFound)
    ensures !KeyPresent(record, keys[..n]) && !KeyRaises(record, keys[..n])
  {
    assert keys[..n][..n - 1] == keys[..n - 1];
    assert keys[..n][i] == keys[i];
    if n == i + 1 {
      PresentKeyIsSome(_ => "", record, keys[..i]);
    } else {
      MissingDecides(record, keys, i, n - 1);
    }
  }

  lemma KeyFound(encode: Value -> string, record: Record, keys: seq<string>, i: nat)
    requires i < |keys| && KeyPresent(record, keys[..i]) && Get(Dict(record), SplitPath(keys[i])).Ok?
    ensures KeyPresent(record, keys[..i + 1]) && KeyOf(encode, record, keys[..i]).Some?
    ensures KeyOf(encode, record, keys[..i + 1]) ==
              Some(KeyOf(encode, record, keys[..i]).value
                  + [PartOf(encode, Get(Dict(record), SplitPath(keys[i])).value)])
  {
    assert keys[..i + 1][..i] == keys[..i];
    PresentKeyIsSome(encode, record, keys[..i]);
  }

  lemma KeyReadRaises(record: Record, keys: seq<string>, i: nat)
    requires i < |keys| && KeyPresent(record, keys[..i]) && Get(Dict(record), SplitPath(keys[i])) == Err(BadInteger)
    ensures KeyRaises(record, keys)
  {
    assert keys[..i + 1][..i] == keys[..i];
    RaisingSticks(record, keys, i + 1);
  }

  lemma KeyMissing(encode: Value -> string, record: Record, keys: seq<string>, i: nat)
    requires i < |keys| && KeyPresent(record, keys[..i]) && Get(Dict(record), SplitPath(keys[i])) == Err(NotFound)
    ensures KeyOf(encode, record, keys).None? && !KeyRaises(record, keys)
  {
    MissingDecides(record, keys, i, |keys|);
    assert keys[..|keys|] == keys;
    PresentKeyIsSome(encode, record, keys);
  }

  /** The loop of `_key_of`: the key, none when a path is missing, or the exception of `int`. */
  method ComputeKey(encode: Value -> string, record: Record, keys: seq<string>)
    returns (r: Result<Option<Key>, PathError>)
    ensures r == if KeyRaises(record, keys) then Err(BadInteger) else Ok(KeyOf(encode, record, keys))
  {
    var parts: Key := [];
    for i := 0 to |keys|
      invariant KeyOf(encode, record, keys[..i]) == Some(parts) && KeyPresent(record, keys[..i])
    {
      var value := GetPath(Dict(record), SplitPath(keys[i]));
      match value
      case Err(BadInteger) =>
        KeyReadRaises(record, keys, i);
        return Err(BadInteger);
      case Err(NotFound) =>
        KeyMissing(encode, record, keys, i);
        return Ok(None);
      case Ok(v) =>
        KeyFound(encode, record, keys, i);
        parts := parts + [PartOf(encode, v)];
    }
    assert keys[..|keys|] == keys;
    PresentKeyIsSome(encode, record, keys);
    return Ok(Some(parts));
  }

  // ---------------------------------------------------------------- combining two records

  /** Add one right field: keys are dropped, a name already taken gets the suffix. */
  function AddField(combined: Record, e: Entry, keys: seq<string>, suffix: string): Record {
    if e.key in keys then combined
    else if Lookup(combined, e.key).Some? then Put(combined, e.key + suffix, e.value)
    else Put(combined, e.key, e.value)
  }

  function Combine(left: Record, right: Record, keys: seq<string>, suffix: string): Record {
    if right == [] then left
    else AddField(Combine(left, right[..|right| - 1], keys, suffix), right[|right| - 1], keys, suffix)
  }

  /** The `j`-th right field finds its name taken, so that it is written under the suffixed name. */
  predicate Renamed(left: Record, right: Record, keys: seq<string>, suffix: string, j: nat)
    requires j < |right|
  {
    right[j].key !in keys && Lookup(Combine(left, right[..j], keys, suffix), right[j].key).Some?
  }

  predicate UniqueFields(record: Record) {
    forall i, j :: 0 <= i < j < |record| ==> record[i].key != record[j].key
  }

  lemma SameSuffix(a: string, b: string, suffix: string)
    requires a + suffix == b + suffix
    ensures a == b
  {
    assert |a| == |b|;
    assert a == (a + suffix)[..|a|] && b == (b + suffix)[..|b|];
  }

  /** One right field: what it does to the value under a name that is taken. */
  lemma AddFieldTo(before: Record, e: Entry, keys: seq<string>, suffix: string, x: string)
    requires Lookup(before, x).Some? && suffix != []
    ensures Lookup(AddField(before, e, keys, suffix), x) ==
              if e.key !in keys && Lookup(before, e.key).Some?
                  && e.key + suffix == x then Some(e.value) else Lookup(before, x)
  {
    LookupAfterPut(before, e.key + suffix, e.value, x);
    LookupAfterPut(before, e.key, e.value, x);
  }

  /** The `j`-th right field is written over the left field `x`. */
  predicate Hits(left: Record, right: Record, keys: seq<string>, suffix: string, x: string, j: nat)
    requires j < |right|
  {
    right[j].key + suffix == x && Renamed(left, right, keys, suffix, j)
  }

  lemma OneHit(left: Record, right: Record, keys: seq<string>, suffix: string, x: string, i: nat, j: nat)
    requires UniqueFields(right) && i < |right| && j < |right|
    requires Hits(left, right, keys, suffix, x, i) && Hits(left, right, keys, suffix, x, j)
    ensures i == j
  {
    SameSuffix(right[i].key, right[j].key, suffix);
  }

  lemma CombineNext(left: Record, right: Record, keys: seq<string>, suffix: string, k: nat)
    requires k < |right|
    ensures Combine(left, right[..k + 1], keys, suffix) ==
            AddField(Combine(left, right[..k], keys, suffix), right[k], keys, suffix)
  {
    assert right[..k + 1][..k] == right[..k];
  }

  /** Fields that do not hit `x` leave it alone. */
  lemma {:induction false} FieldKept(left: Record, right: Record, keys: seq<string>, suffix: string, x: string,
                                     a: nat, b: nat)
    requires suffix != [] && a <= b <= |right| && Lookup(Combine(left, right[..a], keys, suffix), x).Some?
    requires forall j :: a <= j < b ==> !Hits(left, right, keys, suffix, x, j)
    ensures Lookup(Combine(left, right[..b], keys, suffix), x) == Lookup(Combine(left, right[..a], keys, suffix), x)
    decreases b - a
  {
    if a < b {
      FieldKept(left, right, keys, suffix, x, a, b - 1);
      CombineNext(left, right, keys, suffix, b - 1);
      AddFieldTo(Combine(left, right[..b - 1], keys, suffix), right[b - 1], keys, suffix, x);
      assert !Hits(left, right, keys, suffix, x, b - 1);
    }
  }

  /** The field that hits `x` decides its value. */
  lemma FieldHit(left: Record, right: Record, keys: seq<string>, suffix: string, x: string, a: nat, j: nat)
    requires UniqueFields(right) && suffix != [] && a <= j < |right|
    requires Lookup(Combine(left, right[..a], keys, suffix), x).Some? && Hits(left, right, keys, suffix, x, j)
    ensures Lookup(Combine(left, right[..|right|], keys, suffix), x) == Some(right[j].value)
  {
    forall i | 0 <= i < |right| && i != j ensures !Hits(left, right, keys, suffix, x, i) {
      if Hits(left, right, keys, suffix, x, i) {
        OneHit(left, right, keys, suffix, x, i, j);
      }
    }
    FieldKept(left, right, keys, suffix, x, a, j);
    CombineNext(left, right, keys, suffix, j);
    AddFieldTo(Combine(left, right[..j], keys, suffix), right[j], keys, suffix, x);
    FieldKept(left, right, keys, suffix, x, j + 1, |right|);
  }

  /** Exactly when a left field survives: it keeps its value unless some right field is renamed onto
      it, and then it has that field's value. */
  lemma LeftFieldFate(left: Record, right: Record, keys: seq<string>, suffix: string, x: string)
    requires UniqueFields(right) && suffix != [] && Lookup(left, x).Some?
    ensures (forall j :: 0 <= j < |right| ==> !Hits(left, right, keys, suffix, x, j)) ==>
              Lookup(Combine(left, right, keys, suffix), x) == Lookup(left, x)
    ensures forall j :: 0 <= j < |right| && Hits(left, right, keys, suffix, x, j) ==>
              Lookup(Combine(left, right, keys, suffix), x) == Some(right[j].value)
  {
    assert right[..|right|] == right && Combine(left, right[..0], keys, suffix) == left;
    if forall j :: 0 <= j < |right| ==> !Hits(left, right, keys, suffix, x, j) {
      FieldKept(left, right, keys, suffix, x, 0, |right|);
    }
    forall j | 0 <= j < |right| && Hits(left, right, keys, suffix, x, j)
      ensures Lookup(Combine(left, right, keys, suffix), x) == Some(right[j].value)
    {
      FieldHit(left, right, keys, suffix, x, 0, j);
    }
  }

  /** Whatever the suffix, a left field survives when it is not named like a right field with the
      suffix. */
  lemma {:induction false} LeftFieldSurvives(left: Record, right: Record, keys: seq<string>, suffix: string, x: string)
    requires Lookup(left, x).Some?
    requires forall j :: 0 <= j < |right| && right[j].key !in keys ==> right[j].key + suffix != x
    ensures Lookup(Combine(left, right, keys, suffix), x) == Lookup(left, x)
  {
    if right != [] {
      var front, e := right[..|right| - 1], right[|right| - 1];
      LeftFieldSurvives(left, front, keys, suffix, x);
      var before := Combine(left, front, keys, suffix);
      LookupAfterPut(before, e.key + suffix, e.value, x);
      LookupAfterPut(before, e.key, e.value, x);
    }
  }

  /** A concrete loss: joining on `id`, the left `a_right` is overwritten by the right `a`. */
  lemma LeftFieldCanBeLost()
    ensures var left := [Entry("id", Int(1)), Entry("a", Int(2)), Entry("a_right", Int(3))];
            var right := [Entry("id", Int(1)), Entry("a", Int(9))];
            Lookup(left, "a_right") == Some(Int(3))
            && Lookup(Combine(left, right, ["id"], "_right"), "a_right") == Some(Int(9))
  {
    var left := [Entry("id", Int(1)), Entry("a", Int(2)), Entry("a_right", Int(3))];
    var right := [Entry("id", Int(1)), Entry("a", Int(9))];
    assert |"id"| == 2 && |"a"| == 1 && |"a_right"| == 7;
    assert left[1..][0].key == "a" && left[1..][1..] == [Entry("a_right", Int(3))];
    assert Lookup(left, "a").Some?;
    assert Lookup(left, "a_right") == Some(Int(3));
    assert right[..0] == [] && right[..1] == [Entry("id", Int(1))] && right[..1][..0] == [];
    assert Combine(left, right[..1], ["id"], "_right") == left;
    assert "a" + "_right" == "a_right";
    assert "a" !in ["id"];
    assert Hits(left, right, ["id"], "_right", "a_right", 1);
    LeftFieldFate(left, right, ["id"], "_right", "a_right");
  }

  /** The name under which the `j`-th right field is written. */
  function WrittenAs(left: Record, right: Record, keys: seq<string>, suffix: string, j: nat): string
    requires j < |right|
  {
    if Renamed(left, right, keys, suffix, j) then right[j].key + suffix else right[j].key
  }

  lemma JustWritten(left: Record, right: Record, keys: seq<string>, suffix: string, j: nat)
    requires j < |right| && right[j].key !in keys
    ensures Lookup(Combine(left, right[..j + 1], keys, suffix), WrittenAs(left, right, keys, suffix, j)) ==
            Some(right[j].value)
  {
    var before, x := Combine(left, right[..j], keys, suffix), WrittenAs(left, right, keys, suffix, j);
    CombineNext(left, right, keys, suffix, j);
    LookupAfterPut(before, x, right[j].value, x);
  }

  /** A renamed right field is never lost: no other field is written under its new name after it. */
  lemma RenamedFieldStays(left: Record, right: Record, keys: seq<string>, suffix: string, j: nat)
    requires UniqueFields(right) && suffix != [] && j < |right| && Renamed(left, right, keys, suffix, j)
    ensures Lookup(Combine(left, right, keys, suffix), right[j].key + suffix) == Some(right[j].value)
  {
    var x := right[j].key + suffix;
    forall i | j < i < |right| ensures !Hits(left, right, keys, suffix, x, i) {
      if Hits(left, right, keys, suffix, x, i) {
        OneHit(left, right, keys, suffix, x, i, j);
      }
    }
    JustWritten(left, right, keys, suffix, j);
    FieldKept(left, right, keys, suffix, x, j + 1, |right|);
    assert right[..|right|] == right;
  }

  /** Exactly when a right field that kept its name survives: unless a later one is renamed onto it, and
      then that one's value is there. */
  lemma RightFieldFate(left: Record, right: Record, keys: seq<string>, suffix: string, j: nat)
    requires UniqueFields(right) && suffix != [] && j < |right| && right[j].key !in keys
    requires !Renamed(left, right, keys, suffix, j)
    ensures (forall i :: j < i < |right| ==> !Hits(left, right, keys, suffix, right[j].key, i)) ==>
              Lookup(Combine(left, right, keys, suffix), right[j].key) == Some(right[j].value)
    ensures forall i :: j < i < |right| && Hits(left, right, keys, suffix, right[j].key, i) ==>
              Lookup(Combine(left, right, keys, suffix), right[j].key) == Some(right[i].value)
  {
    var x := right[j].key;
    assert right[..|right|] == right;
    JustWritten(left, right, keys, suffix, j);
    if forall i :: j < i < |right| ==> !Hits(left, right, keys, suffix, x, i) {
      FieldKept(left, right, keys, suffix, x, j + 1, |right|);
    }
    forall i | j < i < |right| && Hits(left, right, keys, suffix, x, i)
      ensures Lookup(Combine(left, right, keys, suffix), x) == Some(right[i].value)
    {
      FieldHit(left, right, keys, suffix, x, j + 1, i);
    }
  }

  /** The `i`-th right field is written under the name. */
  predicate Writes(left: Record, right: Record, keys: seq<string>, suffix: string, i: nat, x: string)
    requires i < |right|
  {
    right[i].key !in keys && WrittenAs(left, right, keys, suffix, i) == x
  }

  lemma NameTakenNext(left: Record, right: Record, keys: seq<string>, suffix: string, k: nat, x: string)
    requires k < |right|
    ensures Lookup(Combine(left, right[..k + 1], keys, suffix), x).Some? <==>
            Lookup(Combine(left, right[..k], keys, suffix), x).Some? || Writes(left, right, keys, suffix, k, x)
  {
    var before, e := Combine(left, right[..k], keys, suffix), right[k];
    CombineNext(left, right, keys, suffix, k);
    LookupAfterPut(before, e.key + suffix, e.value, x);
    LookupAfterPut(before, e.key, e.value, x);
  }

  /** Which names are taken after the first `k` right fields. */
  lemma {:induction false} NamesTaken(left: Record, right: Record, keys: seq<string>, suffix: string, k: nat, x: string)
    requires k <= |right|
    ensures Lookup(Combine(left, right[..k], keys, suffix), x).Some? <==>
            Lookup(left, x).Some? || exists i :: 0 <= i < k && Writes(left, right, keys, suffix, i, x)
  {
    if k > 0 {
      NamesTaken(left, right, keys, suffix, k - 1, x);
      NameTakenNext(left, right, keys, suffix, k - 1, x);
    }
  }

  /** A right field is renamed exactly when the left record has its name, or an earlier right field was
      renamed to it. */
  lemma RenamedExactly(left: Record, right: Record, keys: seq<string>, suffix: string, j: nat)
    requires UniqueFields(right) && j < |right| && right[j].key !in keys
    ensures Renamed(left, right, keys, suffix, j) <==>
            Lookup(left, right[j].key).Some? || exists i ::
                0 <= i < j && Hits(left, right, keys, suffix, right[j].key, i)
  {
    var x := right[j].key;
    NamesTaken(left, right, keys, suffix, j, x);
    assert forall i :: 0 <= i < j ==>
        (Writes(left, right, keys, suffix, i, x) <==> Hits(left, right, keys, suffix, x, i));
  }

  /** A concrete loss: the right `a_right` is overwritten by the right `a` after it. */
  lemma RightFieldCanBeLost()
    ensures var left := [Entry("id", Int(1)), Entry("a", Int(2))];
            var right := [Entry("a_right", Int(3)), Entry("a", Int(9))];
            Lookup(Combine(left, right, ["id"], "_right"), "a_right") == Some(Int(9))
  {
    var left := [Entry("id", Int(1)), Entry("a", Int(2))];
    var right := [Entry("a_right", Int(3)), Entry("a", Int(9))];
    assert |"id"| == 2 && |"a"| == 1 && |"a_right"| == 7;
    assert left[1..][0].key == "a" && left[1..][1..] == [];
    assert Lookup(left, "a").Some? && Lookup(left, "a_right").None?;
    RenamedExactly(left, right, ["id"], "_right", 0);
    RenamedExactly(left, right, ["id"], "_right", 1);
    assert "a" + "_right" == "a_right";
    assert Hits(left, right, ["id"], "_right", "a_right", 1);
    RightFieldFate(left, right, ["id"], "_right", 0);
  }

  method CombineRecords(left: Record, right: Record, keys: seq<string>, suffix: string) returns (combined: Record)
    ensures combined == Combine(left, right, keys, suffix)
  {
    combined := left;
    for i := 0 to |right|
      invariant combined == Combine(left, right[..i], keys, suffix)
    {
      assert right[..i + 1][..i] == right[..i];
      combined := AddField(combined, right[i], keys, suffix);
    }
    assert right[..|right|] == right;
  }

  // ---------------------------------------------------------------- the nested-loop join

  /** Compare one left record with every right record, in order. */
  function MatchesOf(encode: Value -> string, left: Record, right: seq<Record>, cfg: JoinConfig): seq<Record> {
    if right == [] then []
    else
      var r := right[|right| - 1];
      MatchesOf(encode, left, right[..|right| - 1], cfg) +
      if KeyOf(encode, left, cfg.keys).Some? && KeyOf(encode, r, cfg.keys) == KeyOf(encode, left, cfg.keys)
      then [Combine(left, r, cfg.keys, cfg.suffix)] else []
  }

  /** The rows of one left record: its matches, or itself when none match and it is kept. */
  function RowsOf(encode: Value -> string, left: Record, right: seq<Record>, cfg: JoinConfig): seq<Record> {
    var matches := MatchesOf(encode, left, right, cfg);
    if matches != [] then matches else if cfg.how.Inner? then [] else [left]
  }

  function LeftPart(encode: Value -> string, left: seq<Record>, right: seq<Record>, cfg: JoinConfig): seq<Record> {
    if left == [] then []
    else LeftPart(encode, left[..|left| - 1], right, cfg) + RowsOf(encode, left[|left| - 1], right, cfg)
  }

  /** The right records with a given key, in order. */
  function Having(encode: Value -> string, right: seq<Record>, keys: seq<string>, key: Option<Key>): seq<Record> {
    if right == [] then []
    else
      var r := right[|right| - 1];
      Having(encode, right[..|right| - 1], keys, key) + if KeyOf(encode, r, keys) == key then [r] else []
  }

  /** The distinct keys of the right records, by first appearance. */
  function KeysSeen(encode: Value -> string, right: seq<Record>, keys: seq<string>): seq<Key> {
    if right == [] then []
    else
      var before := KeysSeen(encode, right[..|right| - 1], keys);
      var key := KeyOf(encode, right[|right| - 1], keys);
      if key.Some? && key.value !in before then before + [key.value] else before
  }

  /** The records of the keys that no left record has, key by key. */
  function UnmatchedOf(encode: Value -> string, order: seq<Key>, matched: set<Key>, right: seq<Record>,
                       keys: seq<string>): seq<Record> {
    if order == [] then []
    else
      var k := order[|order| - 1];
      UnmatchedOf(encode, order[..|order| - 1], matched, right, keys) +
      if k in matched then [] else Having(encode, right, keys, Some(k))
  }

  function LeftKeys(encode: Value -> string, left: seq<Record>, keys: seq<string>): set<Key> {
    set l | l in left && KeyOf(encode, l, keys).Some? :: KeyOf(encode, l, keys).value
  }

  /** The specification of the join: the nested-loop rows; an outer join then adds the right records
      whose key no left record has, and those without a key. */
  function Join(encode: Value -> string, left: seq<Record>, right: seq<Record>, cfg: JoinConfig): seq<Record> {
    LeftPart(encode, left, right, cfg) +
    if cfg.how.Outer? then
      UnmatchedOf(encode, KeysSeen(encode, right, cfg.keys), LeftKeys(encode, left, cfg.keys), right, cfg.keys)
      + Having(encode, right, cfg.keys, None)
    else []
  }

  // ---------------------------------------------------------------- what an outer join keeps

  predicate DistinctKeys(order: seq<Key>) {
    forall i, j :: 0 <= i < j < |order| ==> order[i] != order[j]
  }

  lemma {:induction false} KeysSeenAre(encode: Value -> string, right: seq<Record>, keys: seq<string>)
    ensures DistinctKeys(KeysSeen(encode, right, keys))
    ensures forall k :: k in KeysSeen(encode, right, keys) <==>
            exists r :: r in right && KeyOf(encode, r, keys) == Some(k)
  {
    if right != [] {
      var front, r := right[..|right| - 1], right[|right| - 1];
      assert right == front + [r];
      KeysSeenAre(encode, front, keys);
      forall k ensures (exists q :: q in right && KeyOf(encode, q, keys) == Some(k))
                  <==> (exists q ::
                      q in front && KeyOf(encode, q, keys) == Some(k)) || KeyOf(encode, r, keys) == Some(k) {
        if q :| q in front && KeyOf(encode, q, keys) == Some(k) {
          assert q in right;
        } else if KeyOf(encode, r, keys) == Some(k) {
          assert r in right;
        }
      }
    }
  }

  /** The right records whose key lies in a set, in order. */
  function Within(encode: Value -> string, right: seq<Record>, keys: seq<string>, wanted: set<Key>): seq<Record> {
    if right == [] then []
    else
      var key := KeyOf(encode, right[|right| - 1], keys);
      Within(encode, right[..|right| - 1], keys, wanted) + if key.Some?
      && key.value in wanted then [right[|right| - 1]] else []
  }

  lemma {:induction false} WithinSplits(encode: Value -> string, right: seq<Record>, keys: seq<string>,
                                        wanted: set<Key>, k: Key)
    requires k !in wanted
    ensures multiset(Within(encode, right, keys, wanted + {k}))
         == multiset(Within(encode, right, keys, wanted)) + multiset(Having(encode, right, keys, Some(k)))
  {
    if right != [] {
      WithinSplits(encode, right[..|right| - 1], keys, wanted, k);
    }
  }

  lemma {:induction false} WithinNothing(encode: Value -> string, right: seq<Record>, keys: seq<string>)
    ensures Within(encode, right, keys, {}) == []
  {
    if right != [] {
      WithinNothing(encode, right[..|right| - 1], keys);
    }
  }

  function KeySet(order: seq<Key>): set<Key> {
    set k | k in order
  }

  lemma KeySetSnoc(front: seq<Key>, k: Key, matched: set<Key>)
    ensures KeySet(front + [k]) - matched == (KeySet(front) - matched) + if k in matched then {} else {k}
  {
  }

  lemma UnmatchedStep(encode: Value -> string, front: seq<Key>, k: Key, matched: set<Key>, right: seq<Record>,
                      keys: seq<string>)
    ensures UnmatchedOf(encode, front + [k], matched, right, keys)
         == UnmatchedOf(encode, front, matched, right, keys) + if k in matched then []
             else Having(encode, right, keys, Some(k))
  {
    assert (front + [k])[..|front|] == front;
  }

  lemma {:induction false} UnmatchedIsWithin(encode: Value -> string, order: seq<Key>, matched: set<Key>,
                                             right: seq<Record>, keys: seq<string>)
    requires DistinctKeys(order)
    ensures multiset(UnmatchedOf(encode, order, matched, right, keys))
         == multiset(Within(encode, right, keys, KeySet(order) - matched))
  {
    if order == [] {
      assert KeySet(order) - matched == {};
      WithinNothing(encode, right, keys);
    } else {
      var front, k := order[..|order| - 1], order[|order| - 1];
      assert order == front + [k];
      UnmatchedIsWithin(encode, front, matched, right, keys);
      UnmatchedStep(encode, front, k, matched, right, keys);
      KeySetSnoc(front, k, matched);
      if k in matched {
        assert KeySet(order) - matched == KeySet(front) - matched;
      } else {
        assert k !in KeySet(front) - matched;
        WithinSplits(encode, right, keys, KeySet(front) - matched, k);
      }
    }
  }

  /** An outer join adds each right record whose key no left record has exactly once, and each
      keyless right record exactly once, and no other right record. */
  lemma OuterKeepsRightRecords(encode: Value -> string, left: seq<Record>, right: seq<Record>, cfg: JoinConfig)
    requires cfg.how.Outer?
    ensures var seen := KeySet(KeysSeen(encode, right, cfg.keys));
            multiset(Join(encode, left, right, cfg)) ==
              multiset(LeftPart(encode, left, right, cfg))
              + multiset(Within(encode, right, cfg.keys, seen - LeftKeys(encode, left, cfg.keys)))
              + multiset(Having(encode, right, cfg.keys, None))
  {
    var order := KeysSeen(encode, right, cfg.keys);
    KeysSeenAre(encode, right, cfg.keys);
    UnmatchedIsWithin(encode, order, LeftKeys(encode, left, cfg.keys), right, cfg.keys);
  }

  /** Left and outer joins keep every left record: it gives at least one row, and each of its rows is
      the record itself or the record combined with a right one. */
  lemma NoLeftRecordLost(encode: Value -> string, l: Record, right: seq<Record>, cfg: JoinConfig)
    requires !cfg.how.Inner?
    ensures RowsOf(encode, l, right, cfg) != []
    ensures forall row :: row in RowsOf(encode, l, right, cfg) ==>
              row == l || exists r ::
                  r in right && KeyOf(encode, r, cfg.keys) == KeyOf(encode, l, cfg.keys)
                  && row == Combine(l, r, cfg.keys, cfg.suffix)
  {
    MatchesAre(encode, l, right, cfg);
  }

  lemma {:induction false} MatchesAre(encode: Value -> string, l: Record, right: seq<Record>, cfg: JoinConfig)
    ensures forall row :: row in MatchesOf(encode, l, right, cfg) ==>
              exists r :: r in right && KeyOf(encode, r, cfg.keys) == KeyOf(encode, l, cfg.keys) && row == Combine(l,
                  r, cfg.keys, cfg.suffix)
  {
    if right != [] {
      var front, r := right[..|right| - 1], right[|right| - 1];
      assert right == front + [r];
      MatchesAre(encode, l, front, cfg);
      forall row | row in MatchesOf(encode, l, right, cfg)
        ensures exists q ::
                q in right && KeyOf(encode, q, cfg.keys) == KeyOf(encode, l, cfg.keys)
                && row == Combine(l, q, cfg.keys, cfg.suffix)
      {
        if row in MatchesOf(encode, l, front, cfg) {
          var q :| q in front && KeyOf(encode, q, cfg.keys) == KeyOf(encode, l, cfg.keys)
              && row == Combine(l, q, cfg.keys, cfg.suffix);
          assert q in right;
        } else {
          assert r in right;
        }
      }
    }
  }

  // ---------------------------------------------------------------- the hash join

  /** The hash index holds, per key, the right records with that key. */
  ghost predicate IsIndex(encode: Value -> string, right: seq<Record>, keys: seq<string>, index: map<Key,
                          seq<Record>>) {
    && (forall k :: k in index <==> k in KeysSeen(encode, right, keys))
    && forall k :: k in index ==> index[k] == Having(encode, right, keys, Some(k))
  }

  lemma {:induction false} HavingUnseen(encode: Value -> string, right: seq<Record>, keys: seq<string>, k: Key)
    ensures Having(encode, right, keys, Some(k)) == [] <==> k !in KeysSeen(encode, right, keys)
  {
    if right != [] {
      HavingUnseen(encode, right[..|right| - 1], keys, k);
    }
  }

  /** The three tables that the first loop fills. */
  ghost predicate Indexed(encode: Value -> string, right: seq<Record>, keys: seq<string>,
                          order: seq<Key>, index: map<Key, seq<Record>>, keyless: seq<Record>) {
    && order == KeysSeen(encode, right, keys)
    && IsIndex(encode, right, keys, index)
    && keyless == Having(encode, right, keys, None)
  }

  lemma HavingSnoc(encode: Value -> string, right: seq<Record>, r: Record, keys: seq<string>, key: Option<Key>)
    ensures Having(encode, right + [r], keys, key) ==
              Having(encode, right, keys, key) + if KeyOf(encode, r, keys) == key then [r] else []
  {
    assert (right + [r])[..|right|] == right;
  }

  lemma KeysSeenSnoc(encode: Value -> string, right: seq<Record>, r: Record, keys: seq<string>)
    ensures var before, key := KeysSeen(encode, right, keys), KeyOf(encode, r, keys);
            KeysSeen(encode, right + [r], keys) == if key.Some?
            && key.value !in before then before + [key.value] else before
  {
    assert (right + [r])[..|right|] == right;
  }

  lemma IndexGrows(encode: Value -> string, right: seq<Record>, keys: seq<string>, index: map<Key, seq<Record>>,
                   r: Record, k: Key)
    requires IsIndex(encode, right, keys, index) && KeyOf(encode, r, keys) == Some(k)
    ensures IsIndex(encode, right + [r], keys, index[k := (if k in index then index[k] else []) + [r]])
  {
    KeysSeenSnoc(encode, right, r, keys);
    HavingUnseen(encode, right, keys, k);
    forall x ensures Having(encode, right + [r], keys, Some(x)) == Having(encode, right, keys, Some(x)) + if x == k
        then [r] else [] {
      HavingSnoc(encode, right, r, keys, Some(x));
    }
  }

  /** Index one more right record. */
  lemma IndexStep(encode: Value -> string, right: seq<Record>, keys: seq<string>, order: seq<Key>,
                  index: map<Key, seq<Record>>, keyless: seq<Record>, r: Record, k: Key)
    requires Indexed(encode, right, keys, order, index, keyless) && KeyOf(encode, r, keys) == Some(k)
    ensures Indexed(encode, right + [r], keys, if k in index then order else order + [k],
                    index[k := (if k in index then index[k] else []) + [r]], keyless)
  {
    KeysSeenSnoc(encode, right, r, keys);
    HavingSnoc(encode, right, r, keys, None);
    IndexGrows(encode, right, keys, index, r, k);
  }

  lemma IndexKeyless(encode: Value -> string, right: seq<Record>, keys: seq<string>, order: seq<Key>,
                     index: map<Key, seq<Record>>, keyless: seq<Record>, r: Record)
    requires Indexed(encode, right, keys, order, index, keyless) && KeyOf(encode, r, keys).None?
    ensures Indexed(encode, right + [r], keys, order, index, keyless + [r])
  {
    KeysSeenSnoc(encode, right, r, keys);
    forall key ensures Having(encode, right + [r], keys, key) == Having(encode, right, keys, key) + if key.None?
        then [r] else [] {
      HavingSnoc(encode, right, r, keys, key);
    }
  }

  /** Reading the key of some record raises. */
  predicate SomeKeyRaises(records: seq<Record>, keys: seq<string>) {
    exists i :: 0 <= i < |records| && KeyRaises(records[i], keys)
  }

  lemma RaisesSoFar(records: seq<Record>, i: nat, keys: seq<string>)
    requires i < |records|
    ensures SomeKeyRaises(records[..i + 1], keys) <==> SomeKeyRaises(records[..i], keys) || KeyRaises(records[i], keys)
    ensures KeyRaises(records[i], keys) ==> SomeKeyRaises(records, keys)
  {
    assert records[..i + 1] == records[..i] + [records[i]];
    assert forall j :: 0 <= j < i ==> records[..i][j] == records[..i + 1][j];
    assert records[..i + 1][i] == records[i];
  }

  method BuildIndex(encode: Value -> string, right: seq<Record>, keys: seq<string>)
    returns (raised: bool, order: seq<Key>, index: map<Key, seq<Record>>, keyless: seq<Record>)
    ensures raised <==> SomeKeyRaises(right, keys)
    ensures !raised ==> Indexed(encode, right, keys, order, index, keyless)
  {
    raised, order, index, keyless := false, [], map[], [];
    for i := 0 to |right|
      invariant !raised && !SomeKeyRaises(right[..i], keys) && Indexed(encode, right[..i], keys, order, index, keyless)
    {
      var r := right[i];
      assert right[..i + 1] == right[..i] + [r];
      RaisesSoFar(right, i, keys);
      var key := ComputeKey(encode, r, keys);
      if key.Err? {
        raised := true;
        return;
      }
      if key.value.None? {
        IndexKeyless(encode, right[..i], keys, order, index, keyless, r);
        keyless := keyless + [r];
      } else {
        var k := key.value.value;
        IndexStep(encode, right[..i], keys, order, index, keyless, r, k);
        order := if k in index then order else order + [k];
        index := index[k := (if k in index then index[k] else []) + [r]];
      }
    }
    assert right[..|right|] == right;
  }

  function CombineAll(left: Record, rs: seq<Record>, cfg: JoinConfig): seq<Record> {
    if rs == [] then [] else CombineAll(left, rs[..|rs| - 1], cfg) + [Combine(left, rs[|rs| - 1], cfg.keys, cfg.suffix)]
  }

  /** Looking the key up in the index finds what the nested loop finds, in the same order. */
  lemma {:induction false} IndexFindsMatches(encode: Value -> string, l: Record, right: seq<Record>, cfg: JoinConfig,
                                             k: Key)
    requires KeyOf(encode, l, cfg.keys) == Some(k)
    ensures MatchesOf(encode, l, right, cfg) == CombineAll(l, Having(encode, right, cfg.keys, Some(k)), cfg)
  {
    if right != [] {
      var front, r := right[..|right| - 1], right[|right| - 1];
      IndexFindsMatches(encode, l, front, cfg, k);
      if KeyOf(encode, r, cfg.keys) == Some(k) {
        var having := Having(encode, right, cfg.keys, Some(k));
        assert having[..|having| - 1] == Having(encode, front, cfg.keys, Some(k));
      } else {
        assert Having(encode, right, cfg.keys, Some(k)) == Having(encode, front, cfg.keys, Some(k));
      }
    }
  }

  lemma {:induction false} KeylessMatchesNothing(encode: Value -> string, l: Record, right: seq<Record>,
                                                 cfg: JoinConfig)
    requires KeyOf(encode, l, cfg.keys).None?
    ensures MatchesOf(encode, l, right, cfg) == []
  {
    if right != [] {
      KeylessMatchesNothing(encode, l, right[..|right| - 1], cfg);
    }
  }

  method CombineMatches(left: Record, matches: seq<Record>, cfg: JoinConfig) returns (rows: seq<Record>)
    ensures rows == CombineAll(left, matches, cfg)
  {
    rows := [];
    for i := 0 to |matches|
      invariant rows == CombineAll(left, matches[..i], cfg)
    {
      assert matches[..i + 1][..i] == matches[..i];
      var combined := CombineRecords(left, matches[i], cfg.keys, cfg.suffix);
      rows := rows + [combined];
    }
    assert matches[..|matches|] == matches;
  }

  lemma {:induction false} CombineAllLength(left: Record, rs: seq<Record>, cfg: JoinConfig)
    ensures |CombineAll(left, rs, cfg)| == |rs|
  {
    if rs != [] {
      CombineAllLength(left, rs[..|rs| - 1], cfg);
    }
  }

  /** The rows of one left record, through the index. */
  method JoinOne(encode: Value -> string, l: Record, key: Option<Key>, ghost right: seq<Record>, cfg: JoinConfig,
                 index: map<Key, seq<Record>>, matched: set<Key>)
    returns (rows: seq<Record>, matched': set<Key>)
    requires IsIndex(encode, right, cfg.keys, index) && key == KeyOf(encode, l, cfg.keys)
    ensures rows == RowsOf(encode, l, right, cfg)
    ensures forall k :: k in index ==> (k in matched' <==> k in matched || key == Some(k))
  {
    matched' := matched;
    if key.Some? && key.value in index && index[key.value] != [] {
      matched' := matched + {key.value};
      rows := CombineMatches(l, index[key.value], cfg);
      IndexFindsMatches(encode, l, right, cfg, key.value);
      CombineAllLength(l, index[key.value], cfg);
    } else {
      if key.None? {
        KeylessMatchesNothing(encode, l, right, cfg);
      } else {
        IndexFindsMatches(encode, l, right, cfg, key.value);
        HavingUnseen(encode, right, cfg.keys, key.value);
      }
      rows := if cfg.how.Inner? then [] else [l];
    }
  }

  /** Only the keys in the order matter to what is left over. */
  lemma {:induction false} UnmatchedFrame(encode: Value -> string, order: seq<Key>, a: set<Key>, b: set<Key>,
                                          right: seq<Record>, keys: seq<string>)
    requires forall k :: k in order ==> (k in a <==> k in b)
    ensures UnmatchedOf(encode, order, a, right, keys) == UnmatchedOf(encode, order, b, right, keys)
  {
    if order != [] {
      assert order[|order| - 1] in order;
      UnmatchedFrame(encode, order[..|order| - 1], a, b, right, keys);
    }
  }

  method LeftOver(encode: Value -> string, order: seq<Key>, matched: set<Key>, index: map<Key, seq<Record>>,
                  ghost right: seq<Record>, keys: seq<string>)
    returns (rows: seq<Record>)
    requires IsIndex(encode, right, keys, index) && forall k :: k in order ==> k in index
    ensures rows == UnmatchedOf(encode, order, matched, right, keys)
  {
    rows := [];
    for i := 0 to |order|
      invariant rows == UnmatchedOf(encode, order[..i], matched, right, keys)
    {
      assert order[..i + 1][..i] == order[..i];
      assert order[i] in order;
      if order[i] !in matched {
        rows := rows + index[order[i]];
      }
    }
    assert order[..|order|] == order;
  }

  lemma LeftKeysStep(encode: Value -> string, left: seq<Record>, i: nat, keys: seq<string>, k: Key)
    requires i < |left|
    ensures k in LeftKeys(encode, left[..i + 1], keys) <==>
            k in LeftKeys(encode, left[..i], keys) || KeyOf(encode, left[i], keys) == Some(k)
  {
    assert left[..i + 1] == left[..i] + [left[i]];
  }

  /** The two-stream part of `_join`: it raises exactly when reading the key of some record on either side raises, and
      otherwise computes the nested-loop join, row for row. */
  method HashJoin(encode: Value -> string, left: seq<Record>, right: seq<Record>, cfg: JoinConfig)
    returns (r: Result<seq<Record>, PathError>)
    ensures r.Err? <==> SomeKeyRaises(right, cfg.keys) || SomeKeyRaises(left, cfg.keys)
    ensures r.Ok? ==> r.value == Join(encode, left, right, cfg)
  {
    var raised, order, index, keyless := BuildIndex(encode, right, cfg.keys);
    if raised {
      return Err(BadInteger);
    }
    var matched: set<Key> := {};
    var out := [];
    for i := 0 to |left|
      invariant !SomeKeyRaises(left[..i], cfg.keys)
      invariant out == LeftPart(encode, left[..i], right, cfg)
      invariant forall k :: k in index ==> (k in matched <==> k in LeftKeys(encode, left[..i], cfg.keys))
    {
      assert left[..i + 1][..i] == left[..i];
      RaisesSoFar(left, i, cfg.keys);
      var key := ComputeKey(encode, left[i], cfg.keys);
      if key.Err? {
        return Err(BadInteger);
      }
      forall k ensures k in LeftKeys(encode, left[..i + 1], cfg.keys)
                  <==> k in LeftKeys(encode, left[..i], cfg.keys) || KeyOf(encode, left[i], cfg.keys) == Some(k) {
        LeftKeysStep(encode, left, i, cfg.keys, k);
      }
      var rows;
      rows, matched := JoinOne(encode, left[i], key.value, right, cfg, index, matched);
      out := out + rows;
    }
    assert left[..|left|] == left;
    if cfg.how.Outer? {
      var rest := LeftOver(encode, order, matched, index, right, cfg.keys);
      UnmatchedFrame(encode, order, matched, LeftKeys(encode, left, cfg.keys), right, cfg.keys);
      out := out + (rest + keyless);
    }
    return Ok(out);
  }

  datatype JoinError = WrongInputs(count: nat) | RaisedKey

  /** `_join`: anything but two streams is a node error; then the keys of both sides are read. */
  method JoinStreams(encode: Value -> string, streams: seq<seq<Record>>, cfg: JoinConfig)
    returns (r: Result<seq<Record>, JoinError>)
    ensures r == Err(WrongInputs(|streams|)) <==> |streams| != 2
    ensures |streams| == 2 ==>
              && (r == Err(RaisedKey) <==> SomeKeyRaises(streams[1], cfg.keys) || SomeKeyRaises(streams[0], cfg.keys))
              && (r.Ok? ==> r.value == Join(encode, streams[0], streams[1], cfg))
  {
    if |streams| != 2 {
      return Err(WrongInputs(|streams|));
    }
    var joined := HashJoin(encode, streams[0], streams[1], cfg);
    return if joined.Ok? then Ok(joined.value) else Err(RaisedKey);
  }

  // ---------------------------------------------------------------- union

  function Texts(canonical: Record -> string, records: seq<Record>): set<string> {
    if records == [] then {} else Texts(canonical, records[..|records| - 1]) + {canonical(records[|records| - 1])}
  }

  /** Each record whose canonical text has not appeared before, in order. */
  function Deduplicated(canonical: Record -> string, records: seq<Record>): seq<Record> {
    if records == [] then []
    else
      var r, before := records[|records| - 1], records[..|records| - 1];
      Deduplicated(canonical, before) + if canonical(r) in Texts(canonical, before) then [] else [r]
  }

  /** The result loses no text, and has one record per text. */
  lemma {:induction false} DeduplicatedIs(canonical: Record -> string, records: seq<Record>)
    ensures Texts(canonical, Deduplicated(canonical, records)) == Texts(canonical, records)
    ensures |Texts(canonical, records)| == |Deduplicated(canonical, records)|
  {
    if records != [] {
      var r, before := records[|records| - 1], records[..|records| - 1];
      DeduplicatedIs(canonical, before);
      var d, d0 := Deduplicated(canonical, records), Deduplicated(canonical, before);
      if canonical(r) in Texts(canonical, before) {
        assert d == d0;
        assert Texts(canonical, records) == Texts(canonical, before);
      } else {
        assert d[..|d| - 1] == d0;
      }
    }
  }

  /** The union strategy. */
  method Union(canonical: Record -> string, records: seq<Record>) returns (merged: seq<Record>)
    ensures merged == Deduplicated(canonical, records)
  {
    merged := [];
    var seen: set<string> := {};
    for i := 0 to |records|
      invariant merged == Deduplicated(canonical, records[..i])
      invariant seen == Texts(canonical, records[..i])
    {
      assert records[..i + 1][..i] == records[..i];
      var marker := canonical(records[i]);
      if marker !in seen {
        seen := seen + {marker};
        merged := merged + [records[i]];
      }
    }
    assert records[..|records|] == records;
  }
}

/** JSON-like data as the engine handles it. A dict keeps its insertion order; looking a key up
    finds its entry, assigning a key replaces its entry in place or appends a new one. */
module Json {
  import opened Wrappers

  datatype Value =
    | Null
    | Bool(flag: bool)
    | Int(n: int)
    | Float(r: real)
    | Str(text: string)
    | List(items: seq<Value>)
    | Dict(entries: seq<Entry>)

  datatype Entry = Entry(key: string, value: Value)

  type Records = seq<Value>

  function Lookup(entries: seq<Entry>, key: string): Option<Value> {
    if entries == [] then None
    else if entries[0].key == key then Some(entries[0].value)
    else Lookup(entries[1..], key)
  }

  function Put(entries: seq<Entry>, key: string, value: Value): seq<Entry> {
    if entries == [] then [Entry(key, value)]
    else if entries[0].key == key then [Entry(key, value)] + entries[1..]
    else [entries[0]] + Put(entries[1..], key, value)
  }

  lemma {:induction false} LookupAfterPut(entries: seq<Entry>, key: string, value: Value, other: string)
    ensures Lookup(Put(entries, key, value), other) == if other == key then Some(value) else Lookup(entries, other)
  {
    if entries != [] && entries[0].key != key {
      LookupAfterPut(entries[1..], key, value, other);
    }
  }

  lemma {:induction false} PutWhatIsThere(entries: seq<Entry>, key: string, value: Value)
    requires Lookup(entries, key) == Some(value)
    ensures Put(entries, key, value) == entries
  {
    if entries[0].key != key {
      PutWhatIsThere(entries[1..], key, value);
    }
    assert entries == [entries[0]] + entries[1..];
  }

  lemma {:induction false} PutTwice(entries: seq<Entry>, key: string, value: Value, value': Value)
    ensures Put(Put(entries, key, value), key, value') == Put(entries, key, value')
  {
    if entries != [] && entries[0].key != key {
      PutTwice(entries[1..], key, value, value');
    }
  }
}

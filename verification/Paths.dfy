/** Dotted paths into JSON-like data: `split_path`, `get_path` and `set_path`.

    Getting and setting behave as a lens: a value set is the value got, setting what is there
    changes nothing, a second set hides the first, and a set is invisible to every path that leads
    to another place. */
module Paths {
  import opened Wrappers
  import opened Json

  /** NotFound is `PathNotFoundError`; BadInteger is the `ValueError` of `int`, as for `int("--5")`. */
  datatype PathError = NotFound | BadInteger

  // ---------------------------------------------------------------- segments

  predicate AllDigits(s: string) {
    forall i :: 0 <= i < |s| ==> '0' <= s[i] <= '9'
  }

  /** Superscript and subscript digits, which `isdigit` accepts and `int` does not. */
  predicate RaisedDigit(c: char) {
    || c == '\U{B2}' || c == '\U{B3}' || c == '\U{B9}' || c == '\U{2070}'
    || '\U{2074}' <= c <= '\U{2079}' || '\U{2080}' <= c <= '\U{2089}'
  }

  /** `str.isdigit`, except that it is true of an empty text. */
  predicate LooksNumeric(s: string) {
    forall i :: 0 <= i < |s| ==> '0' <= s[i] <= '9' || RaisedDigit(s[i])
  }

  /** More digits than this `int` refuses to read. */
  const MAX_DIGITS := 4300

  function StripDashes(s: string): string {
    if s != [] && s[0] == '-' then StripDashes(s[1..]) else s
  }

  /** `segment.lstrip("-").isdigit()`. */
  predicate IsIndex(segment: string) {
    var digits := StripDashes(segment);
    digits != [] && LooksNumeric(digits)
  }

  function Decimal(digits: string): nat
    requires AllDigits(digits)
  {
    if digits == [] then 0
    else Decimal(digits[..|digits| - 1]) * 10 + (digits[|digits| - 1] - '0') as nat
  }

  /** `int(segment)` of a segment that looks like an index: at most one sign, and not too many digits. */
  function ToInt(segment: string): (r: Option<int>)
    ensures r.Some? ==> IsIndex(segment)
  {
    var negative := segment != [] && segment[0] == '-';
    var digits := if negative then segment[1..] else segment;
    if digits == [] || !AllDigits(digits) || |digits| > MAX_DIGITS then None
    else if negative then Some(0 - Decimal(digits) as int)
    else Some(Decimal(digits))
  }

  /** `split_path`: the non-empty parts between dots. */
  function SplitPath(path: string): (segments: seq<string>)
    ensures forall i :: 0 <= i < |segments| ==> segments[i] != []
  {
    SplitFrom(path, [])
  }

  function SplitFrom(path: string, current: string): (segments: seq<string>)
    ensures forall i :: 0 <= i < |segments| ==> segments[i] != []
    decreases |path|
  {
    var done := if current == [] then [] else [current];
    if path == [] then done
    else if path[0] == '.' then done + SplitFrom(path[1..], [])
    else SplitFrom(path[1..], current + [path[0]])
  }

  // ---------------------------------------------------------------- one step

  /** Where a segment points inside a container: a dict key or a list position. Negative indices
      count from the end. */
  datatype Slot = Key(key: string) | At(index: nat) | Nowhere | Malformed

  function SlotOf(v: Value, segment: string): (slot: Slot)
    ensures slot.At? ==> v.List? && slot.index < |v.items|
    ensures slot.Key? <==> v.Dict?
  {
    match v
    case Dict(_) => Key(segment)
    case List(items) =>
      if !IsIndex(segment) then Nowhere
      else if ToInt(segment) == None then Malformed
      else
        var i := ToInt(segment).value;
        if 0 <= i < |items| then At(i)
        else if -|items| <= i < 0 then At(|items| + i)
        else Nowhere
    case _ => Nowhere
  }

  /** The value in a slot. */
  function Fetch(v: Value, slot: Slot): Result<Value, PathError>
    requires slot.At? ==> v.List? && slot.index < |v.items|
    requires slot.Key? ==> v.Dict?
  {
    match slot
    case Key(k) => (match Lookup(v.entries, k) case Some(x) => Ok(x) case None => Err(NotFound))
    case At(i) => Ok(v.items[i])
    case Nowhere => Err(NotFound)
    case Malformed => Err(BadInteger)
  }

  /** The container with the value in a slot replaced; a dict key may be new. */
  function Store(v: Value, slot: Slot, x: Value): Result<Value, PathError>
    requires slot.At? ==> v.List? && slot.index < |v.items|
    requires slot.Key? ==> v.Dict?
  {
    match slot
    case Key(k) => Ok(Dict(Put(v.entries, k, x)))
    case At(i) => Ok(List(v.items[i := x]))
    case Nowhere => Err(NotFound)
    case Malformed => Err(BadInteger)
  }

  lemma FetchAfterStore(v: Value, slot: Slot, x: Value, other: Slot)
    requires slot.At? ==> v.List? && slot.index < |v.items|
    requires slot.Key? ==> v.Dict?
    requires other.At? ==> v.List? && other.index < |v.items|
    requires other.Key? ==> v.Dict?
    requires Store(v, slot, x).Ok?
    ensures other.At? ==> Store(v, slot, x).value.List? && other.index < |Store(v, slot, x).value.items|
    ensures other.Key? ==> Store(v, slot, x).value.Dict?
    ensures Fetch(Store(v, slot, x).value, other) == if other == slot then Ok(x) else Fetch(v, other)
  {
    if slot.Key? && other.Key? {
      LookupAfterPut(v.entries, slot.key, x, other.key);
    }
  }

  /** Storing does not move the slots. */
  lemma SlotsStay(v: Value, slot: Slot, x: Value, segment: string)
    requires slot.At? ==> v.List? && slot.index < |v.items|
    requires slot.Key? ==> v.Dict?
    requires Store(v, slot, x).Ok?
    ensures SlotOf(Store(v, slot, x).value, segment) == SlotOf(v, segment)
  {
  }

  // ---------------------------------------------------------------- whole paths

  function Get(v: Value, path: seq<string>): Result<Value, PathError>
    decreases |path|
  {
    if path == [] then Ok(v)
    else
      match Fetch(v, SlotOf(v, path[0]))
      case Ok(child) => Get(child, path[1..])
      case Err(e) => Err(e)
  }

  function Set(v: Value, path: seq<string>, x: Value): Result<Value, PathError>
    decreases |path|
  {
    if path == [] then Err(NotFound)
    else
      var slot := SlotOf(v, path[0]);
      if |path| == 1 then Store(v, slot, x)
      else
        match Fetch(v, slot)
        case Err(e) => Err(e)
        case Ok(child) =>
          match Set(child, path[1..], x)
          case Err(e) => Err(e)
          case Ok(child') => Store(v, slot, child')
  }

  /** The two paths lead to different places of `v`. */
  predicate Diverge(v: Value, p: seq<string>, q: seq<string>)
    decreases |p|
  {
    p != [] && q != [] &&
    var slot := SlotOf(v, p[0]);
    if slot != SlotOf(v, q[0]) then true
    else match Fetch(v, slot)
         case Ok(child) => Diverge(child, p[1..], q[1..])
         case Err(_) => false
  }

  /** What is set is what is got. */
  lemma {:induction false} GetAfterSet(v: Value, path: seq<string>, x: Value)
    requires Set(v, path, x).Ok?
    ensures Get(Set(v, path, x).value, path) == Ok(x)
    decreases |path|
  {
    var slot := SlotOf(v, path[0]);
    var stored := x;
    if |path| > 1 {
      var child := Fetch(v, slot).value;
      GetAfterSet(child, path[1..], x);
      stored := Set(child, path[1..], x).value;
    }
    SlotsStay(v, slot, stored, path[0]);
    FetchAfterStore(v, slot, stored, slot);
  }

  lemma StoreWhatIsThere(v: Value, slot: Slot, x: Value)
    requires slot.At? ==> v.List? && slot.index < |v.items|
    requires slot.Key? ==> v.Dict?
    requires Fetch(v, slot) == Ok(x)
    ensures Store(v, slot, x) == Ok(v)
  {
    if slot.Key? {
      PutWhatIsThere(v.entries, slot.key, x);
    } else if slot.At? {
      assert v.items[slot.index := x] == v.items;
    }
  }

  /** Setting what is already there changes nothing. */
  lemma {:induction false} SetAfterGet(v: Value, path: seq<string>)
    requires path != [] && Get(v, path).Ok?
    ensures Set(v, path, Get(v, path).value) == Ok(v)
    decreases |path|
  {
    var slot := SlotOf(v, path[0]);
    var child := Fetch(v, slot).value;
    if |path| > 1 {
      SetAfterGet(child, path[1..]);
    }
    StoreWhatIsThere(v, slot, child);
  }

  lemma StoreTwice(v: Value, slot: Slot, x: Value, y: Value)
    requires slot.At? ==> v.List? && slot.index < |v.items|
    requires slot.Key? ==> v.Dict?
    requires Store(v, slot, x).Ok?
    ensures slot.At? ==> Store(v, slot, x).value.List? && slot.index < |Store(v, slot, x).value.items|
    ensures slot.Key? ==> Store(v, slot, x).value.Dict?
    ensures Store(Store(v, slot, x).value, slot, y) == Store(v, slot, y)
  {
    if slot.Key? {
      PutTwice(v.entries, slot.key, x, y);
    } else if slot.At? {
      assert v.items[slot.index := x][slot.index := y] == v.items[slot.index := y];
    }
  }

  /** A second set hides the first. */
  lemma {:induction false} SetAfterSet(v: Value, path: seq<string>, x: Value, y: Value)
    requires Set(v, path, x).Ok?
    ensures Set(v, path, y).Ok?
    ensures Set(Set(v, path, x).value, path, y) == Set(v, path, y)
    decreases |path|
  {
    var slot := SlotOf(v, path[0]);
    if |path| == 1 {
      SlotsStay(v, slot, x, path[0]);
      StoreTwice(v, slot, x, y);
    } else {
      var child := Fetch(v, slot).value;
      SetAfterSet(child, path[1..], x, y);
      var child', child'' := Set(child, path[1..], x).value, Set(child, path[1..], y).value;
      SlotsStay(v, slot, child', path[0]);
      FetchAfterStore(v, slot, child', slot);
      StoreTwice(v, slot, child', child'');
    }
  }

  /** A set is invisible along every path that leads elsewhere. */
  lemma {:induction false} SetElsewhere(v: Value, p: seq<string>, q: seq<string>, x: Value)
    requires Diverge(v, p, q) && Set(v, p, x).Ok?
    ensures Get(Set(v, p, x).value, q) == Get(v, q)
    decreases |p|
  {
    var slot, other := SlotOf(v, p[0]), SlotOf(v, q[0]);
    var stored := x;
    if |p| > 1 {
      var child := Fetch(v, slot).value;
      stored := Set(child, p[1..], x).value;
      if slot == other {
        SetElsewhere(child, p[1..], q[1..], x);
      }
    }
    SlotsStay(v, slot, stored, q[0]);
    FetchAfterStore(v, slot, stored, other);
  }

  /** Setting deep inside is getting the container, setting in it, and putting it back. */
  lemma {:induction false} SetThroughPrefix(v: Value, p: seq<string>, r: seq<string>, x: Value)
    requires p != [] && r != []
    ensures Set(v, p + r, x) ==
              match Get(v, p)
              case Err(e) => Err(e)
              case Ok(inner) =>
                match Set(inner, r, x)
                case Err(e) => Err(e)
                case Ok(inner') => Set(v, p, inner')
    decreases |p|
  {
    assert (p + r)[0] == p[0] && (p + r)[1..] == p[1..] + r;
    var slot := SlotOf(v, p[0]);
    if |p| == 1 {
      assert p[1..] + r == r;
    } else if Fetch(v, slot).Ok? {
      SetThroughPrefix(Fetch(v, slot).value, p[1..], r, x);
    }
  }

  // ---------------------------------------------------------------- indices that `int` rejects

  /** A segment that passes the index test although `int` rejects it, such as `--5`. */
  predicate Rejected(segment: string) {
    IsIndex(segment) && ToInt(segment).None?
  }

  function Dashes(segment: string): (n: nat)
    ensures n <= |segment| && StripDashes(segment) == segment[n..]
  {
    if segment != [] && segment[0] == '-' then 1 + Dashes(segment[1..]) else 0
  }

  /** These are the indices with two dashes or more, with a superscript or subscript digit, or with too
      many digits. */
  lemma RejectedExactly(segment: string)
    ensures Rejected(segment) <==>
            && IsIndex(segment)
            && var digits := StripDashes(segment);
               Dashes(segment) >= 2 || |digits| > MAX_DIGITS || exists i :: 0 <= i < |digits| && RaisedDigit(digits[i])
  {
    var digits := StripDashes(segment);
    if segment != [] && segment[0] == '-' && segment[1..] != [] && segment[1..][0] == '-' {
      assert !AllDigits(segment[1..]);
    } else {
      assert digits == if segment != [] && segment[0] == '-' then segment[1..] else segment;
    }
  }

  predicate NoneRejected(path: seq<string>) {
    forall i :: 0 <= i < |path| ==> !Rejected(path[i])
  }

  /** Without such a segment no get raises. */
  lemma {:induction false} GetNeverRaises(v: Value, path: seq<string>)
    requires NoneRejected(path)
    ensures Get(v, path) != Err(BadInteger)
    decreases |path|
  {
    if path != [] {
      assert !Rejected(path[0]);
      match Fetch(v, SlotOf(v, path[0]))
      case Ok(child) => GetNeverRaises(child, path[1..]);
      case Err(_) =>
    }
  }

  /** Dicts inside dicts, along a path. */
  function Nested(path: seq<string>, inner: Value): Value {
    if path == [] then inner else Dict([Entry(path[0], Nested(path[1..], inner))])
  }

  lemma {:induction false} GetNested(path: seq<string>, inner: Value, rest: seq<string>)
    ensures Get(Nested(path, inner), path + rest) == Get(inner, rest)
  {
    if path == [] {
      assert path + rest == rest;
    } else {
      assert (path + rest)[1..] == path[1..] + rest;
      GetNested(path[1..], inner, rest);
    }
  }

  /** With one, some value makes the get raise. */
  lemma SomeGetRaises(path: seq<string>, i: nat) returns (v: Value)
    requires i < |path| && Rejected(path[i])
    ensures Get(v, path) == Err(BadInteger)
  {
    v := Nested(path[..i], List([]));
    GetNested(path[..i], List([]), path[i..]);
    assert path == path[..i] + path[i..];
  }

  // ---------------------------------------------------------------- the loops

  /** `get_path`: walk down one segment at a time. */
  method GetPath(obj: Value, path: seq<string>) returns (r: Result<Value, PathError>)
    ensures r == Get(obj, path)
  {
    var current := obj;
    for i := 0 to |path|
      invariant Get(obj, path) == Get(current, path[i..])
    {
      assert path[i..][1..] == path[i + 1..];
      match Fetch(current, SlotOf(current, path[i]))
      case Ok(child) => current := child;
      case Err(e) => return Err(e);
    }
    return Ok(current);
  }

  /** `set_path`: find the parent container, then assign its last segment. */
  method SetPath(obj: Value, path: seq<string>, x: Value) returns (r: Result<Value, PathError>)
    ensures r == Set(obj, path, x)
  {
    if path == [] {
      return Err(NotFound);
    }
    var parents, leaf := path[..|path| - 1], path[|path| - 1];
    if parents == [] {
      assert path == [leaf];
      return Store(obj, SlotOf(obj, leaf), x);
    }
    assert path == parents + [leaf];
    SetThroughPrefix(obj, parents, [leaf], x);
    var found := GetPath(obj, parents);
    if found.Err? {
      return found;
    }
    var updated := Store(found.value, SlotOf(found.value, leaf), x);
    if updated.Err? {
      return updated;
    }
    return Set(obj, parents, updated.value);
  }
}

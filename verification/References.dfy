/** `$upstream` / `$iter` references in node configs: the resolver that runs before a node, and the
    static finder that validation uses. */
module References {
  import opened Wrappers
  import opened Strings
  import opened Json
  import opened Paths
  import opened Graphs

  datatype Kind = Upstream | Iter

  /** A reference as both regular expressions capture it: its kind and its dotted path. */
  datatype Ref = Ref(kind: Kind, path: string)

  /** The iterator's current value and position. */
  datatype Iteration = Iteration(value: Value, index: nat)

  datatype Context = Context(upstream: map<NodeId, Records>, iter: Option<Iteration>)

  datatype RefError =
    | EmptyReference
    | OutsideIteration
    | UnknownIterField(field: string)
    | NoOutputOf(node: NodeId)
    | RecordOutOfRange(node: NodeId)
    | NoRecordsOf(node: NodeId)
    | PathMissing(path: string)
    | MalformedIndex(path: string)

  // ---------------------------------------------------------------- recognising references

  /** The characters that `\s` matches. */
  predicate IsSpace(c: char) {
    c in {' ', '\t', '\n', '\r', '\U{b}', '\U{c}', '\U{1c}', '\U{1d}', '\U{1e}', '\U{1f}', '\U{85}', '\U{a0}',
          '\U{1680}', '\U{2028}', '\U{2029}', '\U{202f}', '\U{205f}', '\U{3000}'}
    || '\U{2000}' <= c <= '\U{200a}'
  }

  predicate IsWholePath(path: string) {
    path != [] && forall i :: 0 <= i < |path| ==> !IsSpace(path[i]) && path[i] != '{' && path[i] != '}'
  }

  /** `WHOLE_RE.match`: the entire string is one reference. As `$` does, it ignores one final newline. */
  function MatchWhole(s: string): Option<Ref> {
    var body := if s != [] && s[|s| - 1] == '\n' then s[..|s| - 1] else s;
    if StartsWith(body, "$upstream.") && IsWholePath(body[10..]) then Some(Ref(Upstream, body[10..]))
    else if StartsWith(body, "$iter.") && IsWholePath(body[6..]) then Some(Ref(Iter, body[6..]))
    else None
  }

  function UntilBrace(s: string): (r: string)
    ensures |r| <= |s|
  {
    if s == [] || s[0] == '}' then [] else [s[0]] + UntilBrace(s[1..])
  }

  /** A `${kind.path}` template of which `s` holds everything after the kind's dot. */
  function CloseTemplate(kind: Kind, s: string): Option<Ref> {
    var path := UntilBrace(s);
    if path != [] && |path| < |s| then Some(Ref(kind, path)) else None
  }

  /** `EMBED_RE` at the start of `s`, with the number of characters it takes. */
  function MatchEmbed(s: string): (r: Option<(Ref, nat)>)
    ensures r.Some? ==> 0 < r.value.1 <= |s|
  {
    if StartsWith(s, "${upstream.") && CloseTemplate(Upstream, s[11..]).Some? then
      var ref := CloseTemplate(Upstream, s[11..]).value;
      Some((ref, 11 + |ref.path| + 1))
    else if StartsWith(s, "${iter.") && CloseTemplate(Iter, s[7..]).Some? then
      var ref := CloseTemplate(Iter, s[7..]).value;
      Some((ref, 7 + |ref.path| + 1))
    else None
  }

  datatype Piece = Literal(c: char) | Hole(ref: Ref)

  /** The leftmost non-overlapping templates of a string, and the characters between them. */
  function Pieces(s: string): seq<Piece>
    decreases |s|
  {
    if s == [] then []
    else
      match MatchEmbed(s)
      case Some(hit) => [Hole(hit.0)] + Pieces(s[hit.1..])
      case None => [Literal(s[0])] + Pieces(s[1..])
  }

  // ---------------------------------------------------------------- resolving

  function FromPath(r: Result<Value, PathError>, path: string): Result<Value, RefError> {
    match r
    case Ok(v) => Ok(v)
    case Err(NotFound) => Err(PathMissing(path))
    case Err(BadInteger) => Err(MalformedIndex(path))
  }

  /** The iterator part of `_resolve_reference`. */
  function ResolveIter(segments: seq<string>, path: string, iter: Option<Iteration>): Result<Value, RefError>
    requires segments != []
  {
    if iter.None? then Err(OutsideIteration)
    else
      var base := if segments[0] == "value" then Some(iter.value.value)
                  else if segments[0] == "index" then Some(Int(iter.value.index))
                  else None;
      if base.None? then Err(UnknownIterField(segments[0]))
      else FromPath(Get(base.value, segments[1..]), path)
  }

  /** The upstream part: an integer first segment picks a record, otherwise the first is used. */
  function ResolveUpstream(node: NodeId, rest: seq<string>, path: string, records: Records): Result<Value, RefError> {
    if rest == [] then Ok(List(records))
    else if IsIndex(rest[0]) then
      if ToInt(rest[0]).None? then Err(MalformedIndex(path))
      else
        var i := ToInt(rest[0]).value;
        if !(-|records| <= i < |records|) then Err(RecordOutOfRange(node))
        else FromPath(Get(records[if i < 0 then i + |records| else i], rest[1..]), path)
    else if records == [] then Err(NoRecordsOf(node))
    else FromPath(Get(records[0], rest), path)
  }

  function ResolveReference(ref: Ref, ctx: Context): Result<Value, RefError> {
    var segments := SplitPath(ref.path);
    if segments == [] then Err(EmptyReference)
    else if ref.kind.Iter? then ResolveIter(segments, ref.path, ctx.iter)
    else if segments[0] !in ctx.upstream then Err(NoOutputOf(segments[0]))
    else ResolveUpstream(segments[0], segments[1..], ref.path, ctx.upstream[segments[0]])
  }

  /** `EMBED_RE.sub`: templates are replaced left to right; `render` is Python's `str`. */
  function Interpolate(pieces: seq<Piece>, ctx: Context, render: Value -> string): Result<string, RefError> {
    if pieces == [] then Ok([])
    else
      var here := match pieces[0]
        case Literal(c) => Ok([c])
        case Hole(ref) =>
          match ResolveReference(ref, ctx)
          case Ok(v) => Ok(render(v))
          case Err(e) => Err(e);
      match here
      case Err(e) => Err(e)
      case Ok(text) =>
        match Interpolate(pieces[1..], ctx, render)
        case Ok(rest) => Ok(text + rest)
        case Err(e) => Err(e)
  }

  function ResolveText(s: string, ctx: Context, render: Value -> string): Result<Value, RefError> {
    if StartsWith(s, "$$") then Ok(Str(s[1..]))
    else
      match MatchWhole(s)
      case Some(ref) => ResolveReference(ref, ctx)
      case None =>
        match Interpolate(Pieces(s), ctx, render)
        case Ok(text) => Ok(Str(text))
        case Err(e) => Err(e)
  }

  /** `resolve_config`: keys stay, strings are resolved, containers recursively in order. */
  function ResolveConfig(v: Value, ctx: Context, render: Value -> string): Result<Value, RefError>
    decreases v, 1
  {
    match v
    case Str(s) => ResolveText(s, ctx, render)
    case Dict(entries) =>
      (match ResolveEntries(entries, ctx, render) case Ok(es) => Ok(Dict(es)) case Err(e) => Err(e))
    case List(items) =>
      (match ResolveItems(items, ctx, render) case Ok(vs) => Ok(List(vs)) case Err(e) => Err(e))
    case _ => Ok(v)
  }

  function ResolveItems(items: seq<Value>, ctx: Context, render: Value -> string): Result<seq<Value>, RefError>
    decreases items, 0
  {
    if items == [] then Ok([])
    else
      match ResolveConfig(items[0], ctx, render)
      case Err(e) => Err(e)
      case Ok(v) =>
        match ResolveItems(items[1..], ctx, render)
        case Err(e) => Err(e)
        case Ok(vs) => Ok([v] + vs)
  }

  function ResolveEntries(entries: seq<Entry>, ctx: Context, render: Value -> string): Result<seq<Entry>, RefError>
    decreases entries, 0
  {
    if entries == [] then Ok([])
    else
      match ResolveConfig(entries[0].value, ctx, render)
      case Err(e) => Err(e)
      case Ok(v) =>
        match ResolveEntries(entries[1..], ctx, render)
        case Err(e) => Err(e)
        case Ok(es) => Ok([Entry(entries[0].key, v)] + es)
  }

  // ---------------------------------------------------------------- finding

  function Holes(pieces: seq<Piece>): seq<Ref> {
    if pieces == [] then []
    else (if pieces[0].Hole? then [pieces[0].ref] else []) + Holes(pieces[1..])
  }

  function RefsInText(s: string): seq<Ref> {
    if StartsWith(s, "$$") then []
    else match MatchWhole(s) case Some(ref) => [ref] case None => Holes(Pieces(s))
  }

  /** `find_references`: every reference of a config, in the order the resolver meets them. */
  function FindRefs(v: Value): seq<Ref>
    decreases v, 1
  {
    match v
    case Str(s) => RefsInText(s)
    case Dict(entries) => RefsInEntries(entries)
    case List(items) => RefsInItems(items)
    case _ => []
  }

  function RefsInItems(items: seq<Value>): seq<Ref>
    decreases items, 0
  {
    if items == [] then [] else FindRefs(items[0]) + RefsInItems(items[1..])
  }

  function RefsInEntries(entries: seq<Entry>): seq<Ref>
    decreases entries, 0
  {
    if entries == [] then [] else FindRefs(entries[0].value) + RefsInEntries(entries[1..])
  }

  // ---------------------------------------------------------------- the finder is exact

  /** The error of the first reference that does not resolve. */
  function FirstError(refs: seq<Ref>, ctx: Context): Option<RefError> {
    if refs == [] then None
    else match ResolveReference(refs[0], ctx) case Err(e) => Some(e) case Ok(_) => FirstError(refs[1..], ctx)
  }

  lemma {:induction false} FirstErrorConcat(a: seq<Ref>, b: seq<Ref>, ctx: Context)
    ensures FirstError(a + b, ctx) == if FirstError(a, ctx).Some? then FirstError(a, ctx) else FirstError(b, ctx)
  {
    if a == [] {
      assert a + b == b;
    } else {
      assert (a + b)[1..] == a[1..] + b;
      FirstErrorConcat(a[1..], b, ctx);
    }
  }

  /** A result fails exactly with the given first error. */
  predicate FailsWith<T>(r: Result<T, RefError>, first: Option<RefError>) {
    match first case Some(e) => r == Err(e) case None => r.Ok?
  }

  lemma {:induction false} InterpolateFails(pieces: seq<Piece>, ctx: Context, render: Value -> string)
    ensures FailsWith(Interpolate(pieces, ctx, render), FirstError(Holes(pieces), ctx))
  {
    if pieces != [] {
      InterpolateFails(pieces[1..], ctx, render);
      var here := if pieces[0].Hole? then [pieces[0].ref] else [];
      FirstErrorConcat(here, Holes(pieces[1..]), ctx);
    }
  }

  /** Resolution fails exactly when some found reference fails, and with the first one's error. */
  lemma {:induction false} ResolveFailsLikeFirstReference(v: Value, ctx: Context, render: Value -> string)
    ensures FailsWith(ResolveConfig(v, ctx, render), FirstError(FindRefs(v), ctx))
    decreases v, 1
  {
    match v
    case Str(s) =>
      if !StartsWith(s, "$$") {
        match MatchWhole(s)
        case Some(ref) =>
          assert FirstError([], ctx) == None;
        case None => InterpolateFails(Pieces(s), ctx, render);
      }
    case Dict(entries) => EntriesFailLikeFirstReference(entries, ctx, render);
    case List(items) => ItemsFailLikeFirstReference(items, ctx, render);
    case _ =>
  }

  lemma {:induction false} ItemsFailLikeFirstReference(items: seq<Value>, ctx: Context, render: Value -> string)
    ensures FailsWith(ResolveItems(items, ctx, render), FirstError(RefsInItems(items), ctx))
    decreases items, 0
  {
    if items != [] {
      ResolveFailsLikeFirstReference(items[0], ctx, render);
      ItemsFailLikeFirstReference(items[1..], ctx, render);
      FirstErrorConcat(FindRefs(items[0]), RefsInItems(items[1..]), ctx);
    }
  }

  lemma {:induction false} EntriesFailLikeFirstReference(entries: seq<Entry>, ctx: Context, render: Value -> string)
    ensures FailsWith(ResolveEntries(entries, ctx, render), FirstError(RefsInEntries(entries), ctx))
    decreases entries, 0
  {
    if entries != [] {
      ResolveFailsLikeFirstReference(entries[0].value, ctx, render);
      EntriesFailLikeFirstReference(entries[1..], ctx, render);
      FirstErrorConcat(FindRefs(entries[0].value), RefsInEntries(entries[1..]), ctx);
    }
  }

  // ---------------------------------------------------------------- the finder covers every read

  /** The node an upstream reference reads at run time. */
  function TargetOf(ref: Ref): Option<NodeId> {
    if ref.kind.Upstream? && SplitPath(ref.path) != [] then Some(SplitPath(ref.path)[0]) else None
  }

  /** The two contexts look the same to a reference. */
  predicate SameFor(ref: Ref, c: Context, d: Context) {
    match ref.kind
    case Iter => c.iter == d.iter
    case Upstream =>
      match TargetOf(ref)
      case None => true
      case Some(t) => (t in c.upstream <==> t in d.upstream) && (t in c.upstream ==> c.upstream[t] == d.upstream[t])
  }

  predicate SameForAll(refs: seq<Ref>, c: Context, d: Context) {
    forall i :: 0 <= i < |refs| ==> SameFor(refs[i], c, d)
  }

  lemma SameForParts(a: seq<Ref>, b: seq<Ref>, c: Context, d: Context)
    requires SameForAll(a + b, c, d)
    ensures SameForAll(a, c, d) && SameForAll(b, c, d)
  {
    forall i | 0 <= i < |a| ensures SameFor(a[i], c, d) {
      assert (a + b)[i] == a[i];
    }
    forall i | 0 <= i < |b| ensures SameFor(b[i], c, d) {
      assert (a + b)[|a| + i] == b[i];
    }
  }

  lemma ResolveReferenceFrame(ref: Ref, c: Context, d: Context)
    requires SameFor(ref, c, d)
    ensures ResolveReference(ref, c) == ResolveReference(ref, d)
  {
  }

  lemma {:induction false} InterpolateFrame(pieces: seq<Piece>, c: Context, d: Context, render: Value -> string)
    requires SameForAll(Holes(pieces), c, d)
    ensures Interpolate(pieces, c, render) == Interpolate(pieces, d, render)
  {
    if pieces != [] {
      var here := if pieces[0].Hole? then [pieces[0].ref] else [];
      SameForParts(here, Holes(pieces[1..]), c, d);
      InterpolateFrame(pieces[1..], c, d, render);
      if pieces[0].Hole? {
        assert here[0] == pieces[0].ref;
        ResolveReferenceFrame(pieces[0].ref, c, d);
      }
    }
  }

  /** Contexts that agree on the found references give the same value or the same failure. */
  lemma {:induction false} ResolveReadsOnlyFoundReferences(v: Value, c: Context, d: Context, render: Value -> string)
    requires SameForAll(FindRefs(v), c, d)
    ensures ResolveConfig(v, c, render) == ResolveConfig(v, d, render)
    decreases v, 1
  {
    match v
    case Str(s) =>
      if !StartsWith(s, "$$") {
        match MatchWhole(s)
        case Some(ref) =>
          assert FindRefs(v)[0] == ref;
          ResolveReferenceFrame(ref, c, d);
        case None => InterpolateFrame(Pieces(s), c, d, render);
      }
    case Dict(entries) => EntriesReadOnlyFoundReferences(entries, c, d, render);
    case List(items) => ItemsReadOnlyFoundReferences(items, c, d, render);
    case _ =>
  }

  lemma {:induction false} ItemsReadOnlyFoundReferences(items: seq<Value>, c: Context, d: Context,
                                                        render: Value -> string)
    requires SameForAll(RefsInItems(items), c, d)
    ensures ResolveItems(items, c, render) == ResolveItems(items, d, render)
    decreases items, 0
  {
    if items != [] {
      SameForParts(FindRefs(items[0]), RefsInItems(items[1..]), c, d);
      ResolveReadsOnlyFoundReferences(items[0], c, d, render);
      ItemsReadOnlyFoundReferences(items[1..], c, d, render);
    }
  }

  lemma {:induction false} EntriesReadOnlyFoundReferences(entries: seq<Entry>, c: Context, d: Context,
                                                          render: Value -> string)
    requires SameForAll(RefsInEntries(entries), c, d)
    ensures ResolveEntries(entries, c, render) == ResolveEntries(entries, d, render)
    decreases entries, 0
  {
    if entries != [] {
      SameForParts(FindRefs(entries[0].value), RefsInEntries(entries[1..]), c, d);
      ResolveReadsOnlyFoundReferences(entries[0].value, c, d, render);
      EntriesReadOnlyFoundReferences(entries[1..], c, d, render);
    }
  }

  // ---------------------------------------------------------------- configs without references

  /** A config with the escaping dollar of every `$$` string removed, and nothing else changed. */
  function Unescape(v: Value): Value
    decreases v, 1
  {
    match v
    case Str(s) => if StartsWith(s, "$$") then Str(s[1..]) else v
    case Dict(entries) => Dict(UnescapeEntries(entries))
    case List(items) => List(UnescapeItems(items))
    case _ => v
  }

  function UnescapeItems(items: seq<Value>): seq<Value>
    decreases items, 0
  {
    if items == [] then [] else [Unescape(items[0])] + UnescapeItems(items[1..])
  }

  function UnescapeEntries(entries: seq<Entry>): seq<Entry>
    decreases entries, 0
  {
    if entries == [] then []
    else [Entry(entries[0].key, Unescape(entries[0].value))] + UnescapeEntries(entries[1..])
  }

  lemma {:induction false} InterpolateNoHoles(s: string, ctx: Context, render: Value -> string)
    requires Holes(Pieces(s)) == []
    ensures Interpolate(Pieces(s), ctx, render) == Ok(s)
    decreases |s|
  {
    if s != [] {
      var pieces := Pieces(s);
      if MatchEmbed(s).None? {
        assert pieces[1..] == Pieces(s[1..]);
        InterpolateNoHoles(s[1..], ctx, render);
        assert s == [s[0]] + s[1..];
      }
    }
  }

  /** Without references a config always resolves, and only loses the escaping dollars. */
  lemma {:induction false} NoReferencesOnlyUnescapes(v: Value, ctx: Context, render: Value -> string)
    requires FindRefs(v) == []
    ensures ResolveConfig(v, ctx, render) == Ok(Unescape(v))
    decreases v, 1
  {
    match v
    case Str(s) =>
      if !StartsWith(s, "$$") {
        InterpolateNoHoles(s, ctx, render);
      }
    case Dict(entries) => NoReferencesInEntries(entries, ctx, render);
    case List(items) => NoReferencesInItems(items, ctx, render);
    case _ =>
  }

  lemma {:induction false} NoReferencesInItems(items: seq<Value>, ctx: Context, render: Value -> string)
    requires RefsInItems(items) == []
    ensures ResolveItems(items, ctx, render) == Ok(UnescapeItems(items))
    decreases items, 0
  {
    if items != [] {
      NoReferencesOnlyUnescapes(items[0], ctx, render);
      NoReferencesInItems(items[1..], ctx, render);
    }
  }

  lemma {:induction false} NoReferencesInEntries(entries: seq<Entry>, ctx: Context, render: Value -> string)
    requires RefsInEntries(entries) == []
    ensures ResolveEntries(entries, ctx, render) == Ok(UnescapeEntries(entries))
    decreases entries, 0
  {
    if entries != [] {
      NoReferencesOnlyUnescapes(entries[0].value, ctx, render);
      NoReferencesInEntries(entries[1..], ctx, render);
    }
  }

  // ---------------------------------------------------------------- the validator's target

  /** `path.split(".", 1)[0]`: what validation takes for the target of an upstream reference. */
  function StaticTarget(path: string): NodeId {
    if path == [] || path[0] == '.' then [] else [path[0]] + StaticTarget(path[1..])
  }

  lemma {:induction false} SplitStartsWithTarget(path: string, current: string)
    requires current + StaticTarget(path) != []
    ensures SplitFrom(path, current) != []
    ensures SplitFrom(path, current)[0] == current + StaticTarget(path)
    decreases |path|
  {
    if path == [] || path[0] == '.' {
      assert current + StaticTarget(path) == current;
    } else {
      assert current + StaticTarget(path) == (current + [path[0]]) + StaticTarget(path[1..]);
      SplitStartsWithTarget(path[1..], current + [path[0]]);
    }
  }

  /** A target that validation can accept (ids are never empty) is the one the resolver reads. */
  lemma AcceptedTargetIsResolved(ref: Ref)
    requires ref.kind.Upstream? && StaticTarget(ref.path) != []
    ensures TargetOf(ref) == Some(StaticTarget(ref.path))
  {
    SplitStartsWithTarget(ref.path, []);
    assert [] + StaticTarget(ref.path) == StaticTarget(ref.path);
  }

  // ---------------------------------------------------------------- references that raise

  predicate Raises<T>(r: Result<T, RefError>) {
    r.Err? && r.error.MalformedIndex?
  }

  /** A reference with an index that `int` rejects, where an index can be read: below a node or below
      the iterator's value. */
  predicate MalformedRef(ref: Ref) {
    var segments := SplitPath(ref.path);
    segments != [] && (ref.kind.Upstream? || segments[0] == "value") && !NoneRejected(segments[1..])
  }

  lemma IterNeverRaises(segments: seq<string>, path: string, iter: Option<Iteration>)
    requires segments != [] && (segments[0] == "value" ==> NoneRejected(segments[1..]))
    ensures !Raises(ResolveIter(segments, path, iter))
  {
    if iter.Some? {
      if segments[0] == "value" {
        GetNeverRaises(iter.value.value, segments[1..]);
      }
    }
  }

  lemma UpstreamNeverRaises(node: NodeId, rest: seq<string>, path: string, records: Records)
    requires NoneRejected(rest)
    ensures !Raises(ResolveUpstream(node, rest, path, records))
  {
    if rest != [] {
      assert !Rejected(rest[0]);
      forall r | r in records ensures Get(r, rest) != Err(BadInteger) && Get(r, rest[1..]) != Err(BadInteger) {
        GetNeverRaises(r, rest);
        GetNeverRaises(r, rest[1..]);
      }
    }
  }

  /** A reference raises in some context exactly when it is malformed. */
  lemma RaisesExactlyWhenMalformed(ref: Ref)
    ensures (exists ctx :: Raises(ResolveReference(ref, ctx))) <==> MalformedRef(ref)
  {
    if MalformedRef(ref) {
      var ctx := RaisingContext(ref);
    } else {
      forall ctx ensures !Raises(ResolveReference(ref, ctx)) {
        WellFormedNeverRaises(ref, ctx);
      }
    }
  }

  lemma WellFormedNeverRaises(ref: Ref, ctx: Context)
    requires !MalformedRef(ref)
    ensures !Raises(ResolveReference(ref, ctx))
  {
    var segments := SplitPath(ref.path);
    if segments != [] {
      if ref.kind.Iter? {
        IterNeverRaises(segments, ref.path, ctx.iter);
      } else if segments[0] in ctx.upstream {
        UpstreamNeverRaises(segments[0], segments[1..], ref.path, ctx.upstream[segments[0]]);
      }
    }
  }

  lemma RaisingContext(ref: Ref) returns (ctx: Context)
    requires MalformedRef(ref)
    ensures ResolveReference(ref, ctx) == Err(MalformedIndex(ref.path))
  {
    var segments := SplitPath(ref.path);
    var rest := segments[1..];
    if ref.kind.Iter? {
      var i :| 0 <= i < |rest| && Rejected(rest[i]);
      var v := SomeGetRaises(rest, i);
      ctx := Context(map[], Some(Iteration(v, 0)));
    } else {
      var records := RaisingRecords(segments[0], rest, ref.path);
      ctx := Context(map[segments[0] := records], None);
    }
  }

  lemma RaisingRecords(node: NodeId, rest: seq<string>, path: string) returns (records: Records)
    requires !NoneRejected(rest)
    ensures ResolveUpstream(node, rest, path, records) == Err(MalformedIndex(path))
  {
    var i :| 0 <= i < |rest| && Rejected(rest[i]);
    if Rejected(rest[0]) {
      records := [];
    } else if IsIndex(rest[0]) {
      assert rest[1..][i - 1] == rest[i];
      var v := SomeGetRaises(rest[1..], i - 1);
      var n := ToInt(rest[0]).value;
      records := seq((if n < 0 then -n else n + 1), _ => v);
    } else {
      var v := SomeGetRaises(rest, i);
      records := [v];
    }
  }

  /** `$upstream.a.--5` raises as soon as `a` has run. */
  lemma DoubleDashRaises(ctx: Context)
    requires "a" in ctx.upstream
    ensures SplitPath("a.--5") == ["a", "--5"]
    ensures MalformedRef(Ref(Upstream, "a.--5"))
    ensures ResolveReference(Ref(Upstream, "a.--5"), ctx) == Err(MalformedIndex("a.--5"))
  {
    SplitDoubleDash();
    DoubleDashIsRejected();
    var rest := SplitPath("a.--5")[1..];
    assert rest == ["--5"];
    assert Rejected(rest[0]);
  }

  lemma SplitDoubleDash()
    ensures SplitPath("a.--5") == ["a", "--5"]
  {
    assert "a.--5"[1..] == ".--5" && ".--5"[1..] == "--5" && "--5"[1..] == "-5" && "-5"[1..] == "5" && "5"[1..] == "";
    assert [] + ['a'] == "a" && [] + ['-'] == "-" && "-" + ['-'] == "--" && "--" + ['5'] == "--5";
    assert SplitFrom("", "--5") == ["--5"];
    assert SplitFrom("5", "--") == ["--5"];
    assert SplitFrom("-5", "-") == ["--5"];
    assert SplitFrom("--5", "") == ["--5"];
    assert SplitFrom(".--5", "a") == ["a"] + ["--5"];
  }

  lemma DoubleDashIsRejected()
    ensures Rejected("--5")
  {
    assert "--5"[1..] == "-5" && "-5"[1..] == "5";
    assert StripDashes("5") == "5" && StripDashes("-5") == "5" && StripDashes("--5") == "5";
    assert "-5"[0] == '-';
  }

  /** A config raises only through a malformed reference. */
  predicate WellIndexed(v: Value) {
    forall i :: 0 <= i < |FindRefs(v)| ==> !MalformedRef(FindRefs(v)[i])
  }

  lemma {:induction false} FirstErrorNeverRaises(refs: seq<Ref>, ctx: Context)
    requires forall i :: 0 <= i < |refs| ==> !MalformedRef(refs[i])
    ensures FirstError(refs, ctx).Some? ==> !FirstError(refs, ctx).value.MalformedIndex?
  {
    if refs != [] {
      WellFormedNeverRaises(refs[0], ctx);
      FirstErrorNeverRaises(refs[1..], ctx);
    }
  }

  lemma WellIndexedNeverRaises(v: Value, ctx: Context, render: Value -> string)
    requires WellIndexed(v)
    ensures !Raises(ResolveConfig(v, ctx, render))
  {
    FirstErrorNeverRaises(FindRefs(v), ctx);
    ResolveFailsLikeFirstReference(v, ctx, render);
  }

  // ---------------------------------------------------------------- the accumulating finder

  /** `find_references` with its growing list. */
  method FindReferences(v: Value) returns (found: seq<Ref>)
    ensures found == FindRefs(v)
    decreases v
  {
    found := [];
    match v
    case Str(s) =>
      found := RefsInText(s);
    case Dict(entries) =>
      for i := 0 to |entries|
        invariant found + RefsInEntries(entries[i..]) == RefsInEntries(entries)
      {
        var more := FindReferences(entries[i].value);
        assert entries[i..][1..] == entries[i + 1..];
        found := found + more;
      }
    case List(items) =>
      for i := 0 to |items|
        invariant found + RefsInItems(items[i..]) == RefsInItems(items)
      {
        var more := FindReferences(items[i]);
        assert items[i..][1..] == items[i + 1..];
        found := found + more;
      }
    case _ =>
  }
}

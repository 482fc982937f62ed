/** Dotted paths into DataStore entries: the paths the mapper offers, how the
    poll worker reads them, and the field map it applies. */
module StatPaths {
  import opened Wrappers
  import opened Text
  import opened Json

  // ---------------------------------------------------------------- reading paths

  const USIZE_MAX: int := 0xFFFF_FFFF_FFFF_FFFF

  /** `str::parse::<usize>`: digits after an optional plus. */
  function ParseUsize(s: string): Option<int> {
    match ParseInt(s)
    case None => None
    case Some(i) => if s[0] == '-' || i > USIZE_MAX then None else Some(i)
  }

  function Descend(cur: Json, part: string): Option<Json> {
    match cur
    case JObject(_) => cur.Get(part)
    case JArray(items) =>
      (match ParseUsize(part)
       case None => None
       case Some(i) => if 0 <= i < |items| then Some(items[i]) else None)
    case _ => None
  }

  /** Empty parts are skipped. */
  function ReadParts(value: Json, parts: seq<string>): Option<Json>
    decreases |parts|
  {
    if parts == [] then Some(value)
    else if parts[0] == "" then ReadParts(value, parts[1..])
    else match Descend(value, parts[0])
      case None => None
      case Some(v) => ReadParts(v, parts[1..])
  }

  /** `read_path`. */
  method ReadPath(value: Json, path: string) returns (r: Option<Json>)
    ensures r == ReadParts(value, Split(path, '.'))
  {
    var cur := value;
    var parts := Split(path, '.');
    for i := 0 to |parts|
      invariant ReadParts(cur, parts[i..]) == ReadParts(value, parts)
    {
      assert parts[i..][1..] == parts[i + 1..];
      if parts[i] == "" { continue; }
      var next := Descend(cur, parts[i]);
      if next.None? { return None; }
      cur := next.value;
    }
    return Some(cur);
  }

  // ------------------------------------------------------------- flattening paths

  /** A list of keys that leads from an object to a value that is not one. */
  predicate IsLeaf(j: Json, path: seq<string>)
    decreases |path|
  {
    && j.JObject? && path != [] && path[0] in j.members
    && if j.members[path[0]].JObject? then IsLeaf(j.members[path[0]], path[1..]) else |path| == 1
  }

  function LeafValue(j: Json, path: seq<string>): Json
    requires IsLeaf(j, path)
    decreases |path|
  {
    if j.members[path[0]].JObject? then LeafValue(j.members[path[0]], path[1..]) else j.members[path[0]]
  }

  /** `prefix ? prefix + '.' + k : k`. */
  function Extend(prefix: string, k: string): string {
    if prefix == "" then k else prefix + "." + k
  }

  function JoinPath(prefix: string, path: seq<string>): string
    decreases |path|
  {
    if path == [] then prefix else JoinPath(Extend(prefix, path[0]), path[1..])
  }

  /** From `from` on, `out` holds the texts of `leaves`. */
  ghost predicate Offers(prefix: string, out: seq<string>, from: nat, leaves: seq<seq<string>>) {
    |out| == from + |leaves| && forall i | 0 <= i < |leaves| :: out[from + i] == JoinPath(prefix, leaves[i])
  }

  lemma OffersGrow(prefix: string, out: seq<string>, out': seq<string>, from: nat, leaves: seq<seq<string>>,
                   more: seq<seq<string>>)
    requires Offers(prefix, out, from, leaves) && Offers(prefix, out', |out|, more) && out <= out'
    ensures Offers(prefix, out', from, leaves + more)
  {
    forall i | 0 <= i < |leaves + more| ensures out'[from + i] == JoinPath(prefix, (leaves + more)[i]) {
      if i < |leaves| { assert out'[from + i] == out[from + i]; }
    }
  }

  /** `flattenPaths`: pushes one text for every leaf, each leaf once. `leaves` are
      their key lists; the keys of an object come in any order. */
  method FlattenPaths(obj: Json, prefix: string, out: seq<string>)
    returns (out': seq<string>, ghost leaves: seq<seq<string>>)
    ensures |out'| == |out| + |leaves| && out <= out'
    ensures forall i | 0 <= i < |leaves| :: out'[|out| + i] == JoinPath(prefix, leaves[i])
    ensures forall p :: p in leaves <==> IsLeaf(obj, p)
    ensures forall i, j | 0 <= i < j < |leaves| :: leaves[i] != leaves[j]
    decreases obj
  {
    out', leaves := out, [];
    if !obj.JObject? { return; }
    var left := obj.members.Keys;
    while left != {}
      invariant left <= obj.members.Keys
      invariant out <= out' && Offers(prefix, out', |out|, leaves)
      invariant forall p :: p in leaves <==> IsLeaf(obj, p) && p[0] !in left
      invariant forall i, j | 0 <= i < j < |leaves| :: leaves[i] != leaves[j]
      decreases left
    {
      var k :| k in left;
      var p := Extend(prefix, k);
      var v := obj.members[k];
      ghost var more: seq<seq<string>>;
      ghost var before := out';
      if v.JObject? {
        ghost var inner;
        out', inner := FlattenPaths(v, p, out');
        more := seq(|inner|, i requires 0 <= i < |inner| => [k] + inner[i]);
        UnderKey(obj, k, inner, more);
        TextsUnderKey(prefix, k, inner, more);
      } else {
        out' := out' + [p];
        more := [[k]];
        assert forall q | IsLeaf(obj, q) && q[0] == k :: q == [k];
      }
      OffersGrow(prefix, before, out', |out|, leaves, more);
      LeavesGrow(obj, left, k, leaves, more);
      left := left - {k};
      leaves := leaves + more;
    }
  }

  lemma TextsUnderKey(prefix: string, k: string, inner: seq<seq<string>>, more: seq<seq<string>>)
    requires |more| == |inner| && forall i | 0 <= i < |inner| :: more[i] == [k] + inner[i]
    ensures forall i | 0 <= i < |inner| :: JoinPath(prefix, more[i]) == JoinPath(Extend(prefix, k), inner[i])
  {
    forall i | 0 <= i < |inner| ensures JoinPath(prefix, more[i]) == JoinPath(Extend(prefix, k), inner[i]) {
      assert more[i][0] == k && more[i][1..] == inner[i];
    }
  }

  lemma LeavesGrow(obj: Json, left: set<string>, k: string, leaves: seq<seq<string>>, more: seq<seq<string>>)
    requires obj.JObject? && k in left
    requires forall p :: p in leaves <==> IsLeaf(obj, p) && p[0] !in left
    requires forall p :: p in more <==> IsLeaf(obj, p) && p[0] == k
    requires forall i, j | 0 <= i < j < |leaves| :: leaves[i] != leaves[j]
    requires forall i, j | 0 <= i < j < |more| :: more[i] != more[j]
    ensures forall p :: p in leaves + more <==> IsLeaf(obj, p) && p[0] !in left - {k}
    ensures forall i, j | 0 <= i < j < |leaves + more| :: (leaves + more)[i] != (leaves + more)[j]
  {
    forall i, j | 0 <= i < |leaves| && 0 <= j < |more| ensures leaves[i] != more[j] {
      assert leaves[i] in leaves && more[j] in more;
    }
  }

  lemma UnderKey(obj: Json, k: string, inner: seq<seq<string>>, more: seq<seq<string>>)
    requires obj.JObject? && k in obj.members && obj.members[k].JObject?
    requires forall p :: p in inner <==> IsLeaf(obj.members[k], p)
    requires forall i, j | 0 <= i < j < |inner| :: inner[i] != inner[j]
    requires |more| == |inner| && forall i | 0 <= i < |inner| :: more[i] == [k] + inner[i]
    ensures forall p :: p in more <==> IsLeaf(obj, p) && p[0] == k
    ensures forall i, j | 0 <= i < j < |more| :: more[i] != more[j]
    ensures forall i | 0 <= i < |more| :: more[i][1..] == inner[i]
  {
    forall i | 0 <= i < |more| ensures more[i][1..] == inner[i] && more[i][0] == k {}
    forall p ensures p in more <==> IsLeaf(obj, p) && p[0] == k {
      if p in more {
        var i :| 0 <= i < |more| && more[i] == p;
        assert inner[i] in inner && p[1..] == inner[i];
      }
      if IsLeaf(obj, p) && p[0] == k {
        assert p[1..] in inner;
        var i :| 0 <= i < |inner| && inner[i] == p[1..];
        assert p == [k] + inner[i] == more[i];
      }
    }
  }

  // ---------------------------------------------------------------- the round trip

  predicate PlainKey(k: string) {
    k != "" && '.' !in k
  }

  /** All keys of all objects on the way to leaves. */
  ghost predicate PlainKeys(j: Json)
    decreases j
  {
    j.JObject? ==> forall k | k in j.members :: PlainKey(k) && PlainKeys(j.members[k])
  }

  lemma {:induction false} LeafKeysArePlain(j: Json, path: seq<string>)
    requires PlainKeys(j) && IsLeaf(j, path)
    ensures forall i | 0 <= i < |path| :: PlainKey(path[i])
    decreases |path|
  {
    if j.members[path[0]].JObject? { LeafKeysArePlain(j.members[path[0]], path[1..]); }
  }

  lemma {:induction false} JoinPathPrefix(prefix: string, path: seq<string>)
    requires prefix != "" && path != [] && path[0] != ""
    ensures JoinPath(prefix, path) == prefix + "." + JoinPath("", path)
    decreases |path|
  {
    var k, rest := path[0], path[1..];
    if rest != [] {
      JoinExtend(prefix, k, rest);
    }
  }

  lemma {:induction false} JoinExtend(prefix: string, k: string, rest: seq<string>)
    requires prefix != "" && k != ""
    ensures JoinPath(prefix + "." + k, rest) == prefix + "." + JoinPath(k, rest)
    decreases |rest|
  {
    if rest != [] {
      JoinExtend(prefix, k + "." + rest[0], rest[1..]);
      assert prefix + "." + k + "." + rest[0] == prefix + "." + (k + "." + rest[0]);
    }
  }

  /** Splitting the text gives the keys back. */
  lemma {:induction false} SplitJoinedPath(path: seq<string>)
    requires path != [] && forall i | 0 <= i < |path| :: PlainKey(path[i])
    ensures Split(JoinPath("", path), '.') == path
    decreases |path|
  {
    var k, rest := path[0], path[1..];
    if rest == [] {
      SplitNoSeparator(k, '.');
      assert path == [k];
    } else {
      SplitJoinedPath(rest);
      JoinPathPrefix(k, rest);
      SplitJoin(k, '.', JoinPath("", rest));
    }
  }

  lemma {:induction false} LeafIsRead(j: Json, path: seq<string>)
    requires IsLeaf(j, path) && forall i | 0 <= i < |path| :: path[i] != ""
    ensures ReadParts(j, path) == Some(LeafValue(j, path))
    decreases |path|
  {
    if j.members[path[0]].JObject? { LeafIsRead(j.members[path[0]], path[1..]); }
  }

  /** Whatever object with plain keys: each leaf is offered once, under a text of
      its own, and reading that text gives exactly that leaf. */
  method OfferedPathsReadBack(obj: Json) returns (paths: seq<string>, ghost leaves: seq<seq<string>>)
    requires PlainKeys(obj)
    ensures |paths| == |leaves|
    ensures forall p :: p in leaves <==> IsLeaf(obj, p)
    ensures forall i | 0 <= i < |paths| ::
              IsLeaf(obj, leaves[i]) && ReadParts(obj, Split(paths[i], '.')) == Some(LeafValue(obj, leaves[i]))
    ensures forall i, j | 0 <= i < j < |paths| :: paths[i] != paths[j]
  {
    paths, leaves := FlattenPaths(obj, "", []);
    forall i | 0 <= i < |paths|
      ensures IsLeaf(obj, leaves[i]) && Split(paths[i], '.') == leaves[i]
      ensures ReadParts(obj, Split(paths[i], '.')) == Some(LeafValue(obj, leaves[i]))
    {
      assert leaves[i] in leaves;
      LeafKeysArePlain(obj, leaves[i]);
      SplitJoinedPath(leaves[i]);
      LeafIsRead(obj, leaves[i]);
    }
  }

  lemma {:induction false} SplitPartsHaveNoSeparator(s: string, c: char)
    ensures forall i | 0 <= i < |Split(s, c)| :: c !in Split(s, c)[i]
  {
    if s != "" { SplitPartsHaveNoSeparator(s[1..], c); }
  }

  lemma {:induction false} OtherPartsReadNothing(j: Json, k: string, parts: seq<string>)
    requires j.JObject? && j.members.Keys == {k}
    requires forall i | 0 <= i < |parts| :: parts[i] != k || parts[i] == ""
    ensures ReadParts(j, parts) in {None, Some(j)}
    decreases |parts|
  {
    if parts != [] && parts[0] == "" { OtherPartsReadNothing(j, k, parts[1..]); }
  }

  /** An object with one value under key `k` reads back exactly when `k` is
      non-empty and dot-free. */
  lemma OneKeyReadsBack(k: string, leaf: Json)
    requires !leaf.JObject?
    ensures ReadParts(JObject(map[k := leaf]), Split(JoinPath("", [k]), '.')) == Some(leaf) <==> PlainKey(k)
  {
    var j := JObject(map[k := leaf]);
    if PlainKey(k) {
      SplitNoSeparator(k, '.');
    } else {
      SplitPartsHaveNoSeparator(k, '.');
      forall i | 0 <= i < |Split(k, '.')| ensures Split(k, '.')[i] != k || Split(k, '.')[i] == "" {
        assert '.' !in Split(k, '.')[i];
      }
      OtherPartsReadNothing(j, k, Split(k, '.'));
    }
  }

  /** A list is read by position; outside it, or with a text that is no number or has
      a minus in front, nothing is. */
  lemma ListIsReadByPosition(items: seq<Json>, i: nat, rest: seq<string>)
    requires i <= 18_446_744_073_709_551_615
    ensures ReadParts(JArray(items), [Decimal(i)] + rest) == if i < |items| then ReadParts(items[i], rest) else None
    ensures forall part | part != "" && (part[0] == '-' || ParseInt(part).None?) ::
              ReadParts(JArray(items), [part] + rest) == None
  {
    DecimalNatRoundTrip(i);
    DecimalRoundTrip(i);
    assert Decimal(i)[0] != '-' by { assert IsDigit(Decimal(i)[0]); }
    assert ([Decimal(i)] + rest)[1..] == rest;
    forall part | part != "" && (part[0] == '-' || ParseInt(part).None?)
      ensures ReadParts(JArray(items), [part] + rest) == None
    {
      assert ([part] + rest)[0] == part;
    }
  }

  /** An object is read by key, and a value that holds nothing not at all. */
  lemma ObjectIsReadByKey(j: Json, key: string, rest: seq<string>)
    requires key != "" && !j.JArray?
    ensures ReadParts(j, [key] + rest) ==
            if j.JObject? && key in j.members then ReadParts(j.members[key], rest) else None
    ensures ReadParts(j, [""] + rest) == ReadParts(j, rest) && ReadParts(j, []) == Some(j)
  {
    assert ([key] + rest)[1..] == rest && ([""] + rest)[1..] == rest;
  }

  // ----------------------------------------------------------- keys of any shape

  /** Objects inside each other, one key each, down to a null. */
  function Chain(path: seq<string>): Json {
    if path == [] then JNull else JObject(map[path[0] := Chain(path[1..])])
  }

  function NonEmptyParts(parts: seq<string>): seq<string> {
    if parts == [] then [] else (if parts[0] == "" then [] else [parts[0]]) + NonEmptyParts(parts[1..])
  }

  /** In a chain only the chain's own keys lead to the null. */
  lemma {:induction false} ChainIsReadByItsKeys(path: seq<string>, parts: seq<string>)
    ensures ReadParts(Chain(path), parts) == Some(JNull) ==> NonEmptyParts(parts) == path
    decreases |parts|
  {
    if parts != [] && parts[0] == "" {
      ChainIsReadByItsKeys(path, parts[1..]);
    } else if parts != [] && path != [] && parts[0] == path[0] {
      ChainIsReadByItsKeys(path[1..], parts[1..]);
      assert path == [path[0]] + path[1..];
    }
  }

  lemma {:induction false} ChainLeaf(path: seq<string>)
    requires path != []
    ensures IsLeaf(Chain(path), path) && LeafValue(Chain(path), path) == JNull
  {
    if |path| > 1 { ChainLeaf(path[1..]); }
  }

  lemma {:induction false} NonEmptyPartsAreParts(parts: seq<string>)
    ensures forall q | q in NonEmptyParts(parts) :: q != "" && q in parts
  {
    if parts != [] { NonEmptyPartsAreParts(parts[1..]); }
  }

  /** A list of keys reads back in every object that has a leaf there exactly when
      all its keys are plain. */
  lemma PathReadsBackExactlyWhenPlain(path: seq<string>)
    requires path != []
    ensures (forall i | 0 <= i < |path| :: PlainKey(path[i])) <==>
            forall obj | IsLeaf(obj, path) ::
              ReadParts(obj, Split(JoinPath("", path), '.')) == Some(LeafValue(obj, path))
  {
    var parts := Split(JoinPath("", path), '.');
    if forall i | 0 <= i < |path| :: PlainKey(path[i]) {
      SplitJoinedPath(path);
      forall obj | IsLeaf(obj, path) ensures ReadParts(obj, parts) == Some(LeafValue(obj, path)) {
        LeafIsRead(obj, path);
      }
    } else {
      var i :| 0 <= i < |path| && !PlainKey(path[i]);
      ChainLeaf(path);
      ChainIsReadByItsKeys(path, parts);
      NonEmptyPartsAreParts(parts);
      SplitPartsHaveNoSeparator(JoinPath("", path), '.');
      assert path[i] in path && forall q | q in NonEmptyParts(parts) :: PlainKey(q);
      assert ReadParts(Chain(path), parts) != Some(JNull);
    }
  }

  /** With a dotted key two leaves can be offered under one text, and reading it
      gives the nested one. */
  lemma DottedKeyIsShadowed(a: string, b: string, dotted: Json, nested: Json)
    requires PlainKey(a) && PlainKey(b) && !dotted.JObject? && !nested.JObject?
    ensures var obj := JObject(map[a + "." + b := dotted, a := JObject(map[b := nested])]);
      && IsLeaf(obj, [a + "." + b]) && LeafValue(obj, [a + "." + b]) == dotted
      && JoinPath("", [a + "." + b]) == JoinPath("", [a, b])
      && ReadParts(obj, Split(JoinPath("", [a + "." + b]), '.')) == Some(nested)
  {
    var obj := JObject(map[a + "." + b := dotted, a := JObject(map[b := nested])]);
    assert (a + "." + b)[|a|] == '.';
    assert a + "." + b != a;
    assert [a, b][1..] == [b] && [b][1..] == [];
    assert Extend(Extend("", a), b) == a + "." + b;
    SplitJoin(a, '.', b);
    SplitNoSeparator(b, '.');
    assert [a] + [b] == [a, b];
    assert obj.members[a] == JObject(map[b := nested]);
    assert ReadParts(JObject(map[b := nested]), [b]) == Some(nested);
  }

  // ------------------------------------------------------------------ the field map

  /** What the map puts under `target`: the value of its last entry for that
      target that finds one. */
  function Mapped(raw: Json, fieldMap: seq<(string, Json)>, target: string): Option<Json> {
    if fieldMap == [] then None
    else
      var (path, name) := fieldMap[|fieldMap| - 1];
      var v := ReadParts(raw, Split(path, '.'));
      if name == JString(target) && v.Some? then v else Mapped(raw, fieldMap[..|fieldMap| - 1], target)
  }

  /** A target's value is the one that entry `i` reads, if `i` is the last entry for
      the target whose path reads anything. */
  lemma {:induction false} LastEntryMaps(raw: Json, fieldMap: seq<(string, Json)>, target: string, v: Json)
    ensures Mapped(raw, fieldMap, target) == Some(v) <==>
      exists i :: 0 <= i < |fieldMap| && MapsTo(raw, fieldMap[i], target, v)
                  && forall j, w | i < j < |fieldMap| :: !MapsTo(raw, fieldMap[j], target, w)
  {
    if fieldMap != [] {
      var n := |fieldMap| - 1;
      var front := fieldMap[..n];
      LastEntryMaps(raw, front, target, v);
      var found := ReadParts(raw, Split(fieldMap[n].0, '.'));
      if fieldMap[n].1 == JString(target) && found.Some? {
        assert MapsTo(raw, fieldMap[n], target, found.value);
      } else {
        assert forall w :: !MapsTo(raw, fieldMap[n], target, w);
        if i :| 0 <= i < n && MapsTo(raw, front[i], target, v)
                && forall j, w | i < j < n :: !MapsTo(raw, front[j], target, w) {
          assert fieldMap[i] == front[i];
          forall j, w | i < j < |fieldMap| ensures !MapsTo(raw, fieldMap[j], target, w) {
            if j < n { assert fieldMap[j] == front[j]; }
          }
        }
        if i :| 0 <= i < |fieldMap| && MapsTo(raw, fieldMap[i], target, v)
                && forall j, w | i < j < |fieldMap| :: !MapsTo(raw, fieldMap[j], target, w) {
          assert i < n && front[i] == fieldMap[i];
          forall j, w | i < j < n ensures !MapsTo(raw, front[j], target, w) { assert front[j] == fieldMap[j]; }
        }
      }
    }
  }

  predicate MapsTo(raw: Json, entry: (string, Json), target: string, v: Json) {
    entry.1 == JString(target) && ReadParts(raw, Split(entry.0, '.')) == Some(v)
  }

  /** `apply_field_map`. */
  method ApplyFieldMap(raw: Json, fieldMap: seq<(string, Json)>) returns (out: map<string, Json>)
    ensures forall t :: Mapped(raw, fieldMap, t) == if t in out then Some(out[t]) else None
  {
    out := map[];
    for n := 0 to |fieldMap|
      invariant forall t :: Mapped(raw, fieldMap[..n], t) == if t in out then Some(out[t]) else None
    {
      var (path, target) := fieldMap[n];
      assert fieldMap[..n + 1][..n] == fieldMap[..n];
      if !target.JString? { continue; }
      var v := ReadPath(raw, path);
      if v.Some? { out := out[target.s := v.value]; }
    }
    assert fieldMap[..|fieldMap|] == fieldMap;
  }
}

/** The parsed JSON documents the client receives, and the handful of
    `serde_json` accessors the resolution logic uses on them: `Map::get`,
    `Value::get`, `as_str`, `as_array`, `as_object`, and the
    `filter_map(as_object)` step that keeps only the objects of an array. */
module Json {
  import opened Wrappers

  /** A JSON value. An object keeps its members in the order in which the
      map iterates over them. */
  datatype Json =
    | Null
    | Bool(b: bool)
    | Num(n: int)
    | Str(s: string)
    | Arr(items: seq<Json>)
    | Obj(fields: Fields)

  type Entry = (string, Json)

  /** The members of an object, in iteration order. */
  type Fields = seq<Entry>

  /** The position of the first member whose key satisfies `wanted`, if any.
      This is the search behind both `Map::get` and `iter().find(..)`. */
  function FirstKey(fields: Fields, wanted: string -> bool): (r: Option<nat>)
    ensures r.None? <==> forall i :: 0 <= i < |fields| ==> !wanted(fields[i].0)
    ensures r.Some? ==> r.value < |fields| && wanted(fields[r.value].0)
    ensures r.Some? ==> forall j :: 0 <= j < r.value ==> !wanted(fields[j].0)
  {
    if |fields| == 0 then None
    else if wanted(fields[0].0) then Some(0)
    else match FirstKey(fields[1..], wanted)
      case None => None
      case Some(i) => Some(i + 1)
  }

  /** `Map::get(key)`: the value bound to `key`. */
  function Get(fields: Fields, key: string): (r: Option<Json>)
    ensures r.None? <==> forall i :: 0 <= i < |fields| ==> fields[i].0 != key
    ensures r.Some? ==> exists i :: 0 <= i < |fields| && fields[i] == (key, r.value) &&
                                    forall j :: 0 <= j < i ==> fields[j].0 != key
  {
    match FirstKey(fields, k => k == key)
    case None => None
    case Some(i) => Some(fields[i].1)
  }

  /** `Value::get(key)`: the member of an object; any other value has none. */
  function Member(v: Json, key: string): (r: Option<Json>)
    ensures v.Obj? ==> r == Get(v.fields, key)
    ensures !v.Obj? ==> r.None?
  {
    if v.Obj? then Get(v.fields, key) else None
  }

  /** `map.get(key).and_then(|v| v.as_str())` */
  function StrMember(fields: Fields, key: string): (r: Option<string>)
    ensures r.Some? <==> Get(fields, key).Some? && Get(fields, key).value.Str?
    ensures r.Some? ==> Get(fields, key) == Some(Str(r.value))
  {
    match Get(fields, key)
    case Some(Str(s)) => Some(s)
    case _ => None
  }

  /** `map.get(key).and_then(|v| v.as_array())` */
  function ArrMember(fields: Fields, key: string): (r: Option<seq<Json>>)
    ensures r.Some? <==> Get(fields, key).Some? && Get(fields, key).value.Arr?
    ensures r.Some? ==> Get(fields, key) == Some(Arr(r.value))
  {
    match Get(fields, key)
    case Some(Arr(items)) => Some(items)
    case _ => None
  }

  /** `map.get(key).and_then(|v| v.as_object())` */
  function ObjMember(fields: Fields, key: string): (r: Option<Fields>)
    ensures r.Some? <==> Get(fields, key).Some? && Get(fields, key).value.Obj?
    ensures r.Some? ==> Get(fields, key) == Some(Obj(r.value))
  {
    match Get(fields, key)
    case Some(Obj(fs)) => Some(fs)
    case _ => None
  }

  /** `items.iter().filter_map(|v| v.as_object().cloned()).collect()`:
      the objects of an array, in array order, everything else dropped. */
  function Objects(items: seq<Json>): (r: seq<Fields>)
    ensures |r| <= |items|
    ensures |r| == |items| <==> forall i :: 0 <= i < |items| ==> items[i].Obj?
  {
    if |items| == 0 then []
    else if items[0].Obj? then [items[0].fields] + Objects(items[1..])
    else Objects(items[1..])
  }

  /** Filtering distributes over concatenation. */
  lemma {:induction false} ObjectsAppend(a: seq<Json>, b: seq<Json>)
    ensures Objects(a + b) == Objects(a) + Objects(b)
  {
    if |a| == 0 {
      assert a + b == b;
    } else {
      assert (a + b)[1..] == a[1..] + b;
      ObjectsAppend(a[1..], b);
    }
  }

  /** An object at raw position `i` of an array is found at filtered position
      "number of objects before it": positions count objects only. */
  lemma ObjectsPosition(items: seq<Json>, i: nat)
    requires i < |items| && items[i].Obj?
    ensures |Objects(items[..i])| < |Objects(items)|
    ensures Objects(items)[|Objects(items[..i])|] == items[i].fields
  {
    assert items == items[..i] + ([items[i]] + items[i + 1..]);
    ObjectsAppend(items[..i], [items[i]] + items[i + 1..]);
    ObjectsAppend([items[i]], items[i + 1..]);
    assert Objects([items[i]]) == [items[i].fields] by {
      assert [items[i]][1..] == [];
    }
  }

  /** Every filtered object comes from some raw position, with exactly `k`
      objects before it. */
  lemma {:induction false} ObjectsOrigin(items: seq<Json>, k: nat)
    requires k < |Objects(items)|
    ensures exists i :: 0 <= i < |items| && items[i] == Obj(Objects(items)[k]) && |Objects(items[..i])| == k
  {
    if items[0].Obj? && k == 0 {
      assert items[..0] == [];
      assert items[0] == Obj(Objects(items)[0]);
    } else {
      var k' := if items[0].Obj? then k - 1 else k;
      ObjectsOrigin(items[1..], k');
      var i' :| 0 <= i' < |items[1..]| && items[1..][i'] == Obj(Objects(items[1..])[k']) && |Objects(items[1..][..i'])| == k';
      assert items[..i' + 1] == [items[0]] + items[1..][..i'];
      ObjectsAppend([items[0]], items[1..][..i']);
      assert [items[0]][1..] == [];
      assert items[i' + 1] == Obj(Objects(items)[k]);
    }
  }

  /** One step into a document: an object member by key, or the `n`-th
      (0-based) object of an array, counting objects only. */
  datatype Step = Key(name: string) | NthObject(n: nat)

  function StepInto(v: Json, step: Step): Option<Json>
  {
    match step
    case Key(k) => Member(v, k)
    case NthObject(n) =>
      if v.Arr? && n < |Objects(v.items)| then Some(Obj(Objects(v.items)[n])) else None
  }

  /** The value reached by following `path` from `v`, if every step exists.
      This is the reference the resolution functions are checked against. */
  function Walk(v: Json, path: seq<Step>): Option<Json>
    decreases |path|
  {
    if |path| == 0 then Some(v)
    else match StepInto(v, path[0])
      case None => None
      case Some(w) => Walk(w, path[1..])
  }

  /** Walking a longer path is walking its prefix, then one more step. */
  lemma {:induction false} WalkSnoc(v: Json, path: seq<Step>, step: Step)
    ensures Walk(v, path + [step]) ==
              match Walk(v, path)
              case None => None
              case Some(w) => StepInto(w, step)
    decreases |path|
  {
    if |path| == 0 {
      assert path + [step] == [step];
      assert [step][1..] == [];
    } else {
      assert (path + [step])[1..] == path[1..] + [step];
      match StepInto(v, path[0])
      case None =>
      case Some(w) => WalkSnoc(w, path[1..], step);
    }
  }

  /** Walking a concatenated path is walking the first part, then the rest. */
  lemma {:induction false} WalkAppend(v: Json, p: seq<Step>, q: seq<Step>)
    ensures Walk(v, p + q) ==
              match Walk(v, p)
              case None => None
              case Some(w) => Walk(w, q)
    decreases |p|
  {
    if |p| == 0 {
      assert p + q == q;
    } else {
      assert (p + q)[1..] == p[1..] + q;
      match StepInto(v, p[0])
      case None =>
      case Some(w) => WalkAppend(w, p[1..], q);
    }
  }
}

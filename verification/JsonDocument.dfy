/** Setting documents as JSON trees, with the property access by path that the cipher functions use. */
module JsonDocument {
  import opened Options

  /** A property key: the text of a number, which is also the key of an array element, or any other text. */
  datatype Key = Number(i: nat) | Name(name: string)

  datatype Json = Null | Bool(b: bool) | Num(n: real) | Str(s: string)
    | Obj(fields: map<Key, Json>) | Arr(items: seq<Json>)

  /** A property path, one key per level. */
  type Path = seq<Key>

  function Child(d: Json, key: Key): (r: Option<Json>)
    ensures r.Some? ==> d.Obj? || d.Arr?
  {
    match d
    case Obj(fields) => if key in fields then Some(fields[key]) else None
    case Arr(items) => if key.Number? && key.i < |items| then Some(items[key.i]) else None
    case _ => None
  }

  /** Replaces an existing child. */
  function WithChild(d: Json, key: Key, v: Json): Json
    requires Child(d, key).Some?
  {
    match d
    case Obj(fields) => Obj(fields[key := v])
    case Arr(items) => Arr(items[key.i := v])
  }

  function Get(d: Json, p: Path): Option<Json>
    decreases |p|
  {
    if p == [] then Some(d)
    else if Child(d, p[0]).Some? then Get(Child(d, p[0]).value, p[1..])
    else None
  }

  /** Replaces the value at an existing path; other documents stay as they are. */
  function Set(d: Json, p: Path, v: Json): Json
    decreases |p|
  {
    if p == [] then v
    else if Child(d, p[0]).Some? then WithChild(d, p[0], Set(Child(d, p[0]).value, p[1..], v))
    else d
  }

  /** The non-empty string at a path: what the cipher functions act on. Everything else they skip. */
  function TextAt(d: Json, p: Path): Option<string> {
    match Get(d, p)
    case Some(Str(s)) => if s == "" then None else Some(s)
    case _ => None
  }

  /** The string at a path, empty or not. */
  function StringAt(d: Json, p: Path): Option<string> {
    match Get(d, p)
    case Some(Str(s)) => Some(s)
    case _ => None
  }

  lemma ChildOfWith(d: Json, key: Key, v: Json, other: Key)
    requires Child(d, key).Some?
    ensures Child(WithChild(d, key, v), other) == if other == key then Some(v) else Child(d, other)
  {
  }

  lemma WithSameChild(d: Json, key: Key, v: Json, w: Json)
    requires Child(d, key).Some?
    ensures WithChild(d, key, Child(d, key).value) == d
    ensures Child(WithChild(d, key, v), key).Some? && WithChild(WithChild(d, key, v), key, w) == WithChild(d, key, w)
  {
  }

  lemma WithChildrenCommute(d: Json, key: Key, v: Json, other: Key, w: Json)
    requires key != other && Child(d, key).Some? && Child(d, other).Some?
    ensures Child(WithChild(d, key, v), other).Some? && Child(WithChild(d, other, w), key).Some?
    ensures WithChild(WithChild(d, key, v), other, w) == WithChild(WithChild(d, other, w), key, v)
  {
    match d
    case Obj(fields) => assert fields[key := v][other := w] == fields[other := w][key := v];
    case Arr(items) => ElementsCommute(items, key.i, v, other.i, w);
  }

  lemma ElementsCommute(items: seq<Json>, i: nat, v: Json, j: nat, w: Json)
    requires i != j && i < |items| && j < |items|
    ensures items[i := v][j := w] == items[j := w][i := v]
  {
  }

  lemma {:induction false} GetSet(d: Json, p: Path, v: Json)
    requires Get(d, p).Some?
    ensures Get(Set(d, p, v), p) == Some(v)
    decreases |p|
  {
    if p != [] {
      var child := Child(d, p[0]).value;
      GetSet(child, p[1..], v);
      ChildOfWith(d, p[0], Set(child, p[1..], v), p[0]);
    }
  }

  lemma {:induction false} SetGet(d: Json, p: Path)
    requires Get(d, p).Some?
    ensures Set(d, p, Get(d, p).value) == d
    decreases |p|
  {
    if p != [] {
      SetGet(Child(d, p[0]).value, p[1..]);
      WithSameChild(d, p[0], d, d);
    }
  }

  lemma {:induction false} SetSet(d: Json, p: Path, v: Json, w: Json)
    requires Get(d, p).Some?
    ensures Set(Set(d, p, v), p, w) == Set(d, p, w)
    decreases |p|
  {
    if p != [] {
      var child := Child(d, p[0]).value;
      SetSet(child, p[1..], v, w);
      ChildOfWith(d, p[0], Set(child, p[1..], v), p[0]);
      WithSameChild(d, p[0], Set(child, p[1..], v), Set(child, p[1..], w));
    }
  }

  lemma StringBelow(d: Json, p: Path)
    requires p != [] && Child(d, p[0]).Some?
    ensures StringAt(d, p) == StringAt(Child(d, p[0]).value, p[1..])
  {
  }

  lemma SameTail(p: Path, q: Path)
    requires p != [] && q != [] && p[0] == q[0] && p != q
    ensures p[1..] != q[1..]
  {
    assert p == [p[0]] + p[1..] && q == [q[0]] + q[1..];
  }

  /** Replacing one string leaves the strings at every other path as they were. */
  lemma {:induction false} StringElsewhere(d: Json, p: Path, v: string, q: Path)
    requires p != q && StringAt(d, p).Some?
    ensures StringAt(Set(d, p, Str(v)), q) == StringAt(d, q)
    decreases |p|
  {
    if p != [] && q != [] {
      var child := Child(d, p[0]).value;
      ChildOfWith(d, p[0], Set(child, p[1..], Str(v)), q[0]);
      if q[0] == p[0] {
        SameTail(p, q);
        StringBelow(d, p);
        StringElsewhere(child, p[1..], v, q[1..]);
      }
    }
  }

  /** And so the text, which is what is not empty. */
  lemma TextElsewhere(d: Json, p: Path, v: string, q: Path)
    requires p != q && StringAt(d, p).Some?
    ensures TextAt(Set(d, p, Str(v)), q) == TextAt(d, q)
  {
    StringElsewhere(d, p, v, q);
  }

  /** Replacements of two strings at different paths commute. */
  lemma {:induction false} SetsCommute(d: Json, p: Path, v: string, q: Path, w: string)
    requires p != q && StringAt(d, p).Some? && StringAt(d, q).Some?
    ensures Set(Set(d, p, Str(v)), q, Str(w)) == Set(Set(d, q, Str(w)), p, Str(v))
    decreases |p|
  {
    if p != [] && q != [] {
      var a, b := Child(d, p[0]).value, Child(d, q[0]).value;
      var v1, w1 := Set(a, p[1..], Str(v)), Set(b, q[1..], Str(w));
      ChildOfWith(d, p[0], v1, q[0]);
      ChildOfWith(d, q[0], w1, p[0]);
      if p[0] == q[0] {
        SameTail(p, q);
        StringBelow(d, p);
        StringBelow(d, q);
        SetsCommute(a, p[1..], v, q[1..], w);
        WithSameChild(d, p[0], v1, Set(v1, q[1..], Str(w)));
        WithSameChild(d, p[0], w1, Set(w1, p[1..], Str(v)));
      } else {
        WithChildrenCommute(d, p[0], v1, q[0], w1);
      }
    }
  }

  /** A path leads through the properties of objects and the elements of arrays, and through nothing else. */
  lemma PathLeads(d: Json, key: Key, p: Path)
    ensures d.Obj? && key in d.fields ==> Get(d, [key] + p) == Get(d.fields[key], p)
    ensures d.Arr? && key.Number? && key.i < |d.items| ==> Get(d, [key] + p) == Get(d.items[key.i], p)
    ensures (d.Obj? && key !in d.fields) || (d.Arr? && (key.Name? || key.i >= |d.items|)) ==> Get(d, [key] + p) == None
    ensures !d.Obj? && !d.Arr? ==> Get(d, [key] + p) == None
  {
    assert ([key] + p)[1..] == p;
  }
}

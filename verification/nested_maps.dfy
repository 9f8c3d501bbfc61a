/**
  `nested_set`: storing a value in a dict of dicts at a path of keys,
  creating the dicts missing on the way.
 */
module NestedMaps {
  import opened Text
  import opened Trace

  /** The dict `nested_set(m, path, v)` leaves behind, or the exception it
      raises: IndexError for an empty path, and for a path that runs into a
      text value TypeError (when that text is the last dict needed) or
      AttributeError (when more `setdefault` calls would follow). */
  function SetAtPath(m: map<string, Value>, path: seq<string>, v: Value): Result<map<string, Value>>
    decreases |path|
  {
    if |path| == 0 then Err(IndexError)
    else if |path| == 1 then Ok(m[path[0] := v])
    else
      var child := if path[0] in m then m[path[0]] else Obj(map[]);
      match child
      case Obj(fields) =>
        (match SetAtPath(fields, path[1..], v)
         case Ok(inner) => Ok(m[path[0] := Obj(inner)])
         case Err(e) => Err(e))
      case _ => Err(if |path| == 2 then TypeError else AttributeError)
  }

  /** The value found by following `path` through nested dicts. */
  function Lookup(m: map<string, Value>, path: seq<string>): Option<Value>
    decreases |path|
  {
    if path == [] || path[0] !in m then None
    else if |path| == 1 then Some(m[path[0]])
    else match m[path[0]]
      case Obj(fields) => Lookup(fields, path[1..])
      case _ => None
  }

  /** A key just stored is found by the one-key path. */
  lemma LookupStored(m: map<string, Value>, key: string, v: Value)
    ensures Lookup(m[key := v], [key]) == Some(v)
  {
    assert [key][0] == key;
  }

  /** Every dict the path passes through (all keys but the last) is either
      missing or a dict. */
  predicate Walkable(m: map<string, Value>, path: seq<string>)
    decreases |path|
  {
    |path| <= 1 || path[0] !in m || (m[path[0]].Obj? && Walkable(m[path[0]].fields, path[1..]))
  }

  /** The value a chain of fresh single-key dicts holds around `v`. */
  function Chain(path: seq<string>, v: Value): Value
    decreases |path|
  {
    if path == [] then v else Obj(map[path[0] := Chain(path[1..], v)])
  }

  /** Two key paths that part ways at some position. */
  predicate Diverge(p: seq<string>, q: seq<string>)
  {
    exists i :: 0 <= i < |p| && i < |q| && p[i] != q[i]
  }

  predicate Descends(parent: map<string, Value>, key: string, child: map<string, Value>)
  {
    (key !in parent && child == map[]) || (key in parent && parent[key] == Obj(child))
  }

  /** One level of `nested_set`: the path below `key` is set in the child
      dict found (or created) there, and the changed child is put back. */
  lemma SetAtPathDescend(parent: map<string, Value>, key: string, child: map<string, Value>, rest: seq<string>, v: Value)
    requires Descends(parent, key, child) && |rest| >= 1
    ensures SetAtPath(parent, [key] + rest, v) ==
      match SetAtPath(child, rest, v)
      case Ok(inner) => Ok(parent[key := Obj(inner)])
      case Err(e) => Err(e)
  {
    assert ([key] + rest)[1..] == rest;
  }

  /** The `setdefault` walk of `nested_set`: the dicts it passes, from
      `dictionary` down to the one that receives the value, or the exception
      raised on the way. */
  method DictsOnPath(dictionary: map<string, Value>, keyPath: seq<string>, value: Value)
    returns (r: Result<seq<map<string, Value>>>)
    requires |keyPath| >= 1
    ensures r.Err? ==> SetAtPath(dictionary, keyPath, value) == Err(r.error)
    ensures r.Ok? ==> |r.value| == |keyPath| && r.value[0] == dictionary
    ensures r.Ok? ==> forall j :: 0 <= j < |keyPath| - 1 ==> Descends(r.value[j], keyPath[j], r.value[j + 1])
  {
    var last := |keyPath| - 1;
    var levels := [dictionary];
    var i := 0;
    while i < last
      invariant 0 <= i <= last
      invariant |levels| == i + 1 && levels[0] == dictionary
      invariant forall j :: 0 <= j < i ==> Descends(levels[j], keyPath[j], levels[j + 1])
      invariant SetAtPath(levels[i], keyPath[i..], value).Err? ==>
        SetAtPath(dictionary, keyPath, value) == SetAtPath(levels[i], keyPath[i..], value)
    {
      var key := keyPath[i];
      var next: map<string, Value>;
      if key !in levels[i] {
        next := map[];
      } else {
        match levels[i][key]
        case Obj(fields) =>
          next := fields;
        case _ =>
          assert keyPath[i..][1..] == keyPath[i + 1..];
          return Err(if i + 1 == last then TypeError else AttributeError);
      }
      assert keyPath[i..] == [key] + keyPath[i + 1..];
      SetAtPathDescend(levels[i], key, next, keyPath[i + 1..], value);
      levels := levels + [next];
      i := i + 1;
    }
    return Ok(levels);
  }

  /** nested_set (input_parser.py): walks down the path with `setdefault`,
      then stores the value under the last key. Dicts are values here, so the
      walk keeps the dicts it passes and puts the changed ones back on the
      way up. */
  method NestedSet(dictionary: map<string, Value>, keyPath: seq<string>, value: Value)
    returns (r: Result<map<string, Value>>)
    ensures r == SetAtPath(dictionary, keyPath, value)
  {
    if |keyPath| == 0 {
      return Err(IndexError);
    }
    var walked := DictsOnPath(dictionary, keyPath, value);
    if walked.Err? {
      return Err(walked.error);
    }
    var levels := walked.value;
    var last := |keyPath| - 1;
    var acc := levels[last][keyPath[last] := value];
    var j := last;
    while j > 0
      invariant 0 <= j <= last
      invariant SetAtPath(levels[j], keyPath[j..], value) == Ok(acc)
    {
      j := j - 1;
      assert keyPath[j..] == [keyPath[j]] + keyPath[j + 1..];
      SetAtPathDescend(levels[j], keyPath[j], levels[j + 1], keyPath[j + 1..], value);
      acc := levels[j][keyPath[j] := Obj(acc)];
    }
    assert keyPath[0..] == keyPath;
    return Ok(acc);
  }

  /** After a successful `nested_set` the value is found at the path. */
  lemma {:induction false} SetAtPathStores(m: map<string, Value>, path: seq<string>, v: Value)
    requires SetAtPath(m, path, v).Ok?
    ensures Lookup(SetAtPath(m, path, v).value, path) == Some(v)
    decreases |path|
  {
    if |path| > 1 {
      var child := if path[0] in m then m[path[0]] else Obj(map[]);
      SetAtPathStores(child.fields, path[1..], v);
    }
  }

  /** Only the first key of the path gains or changes an entry at the top
      level; every other key keeps its value. */
  lemma SetAtPathFrame(m: map<string, Value>, path: seq<string>, v: Value)
    requires SetAtPath(m, path, v).Ok?
    ensures var r := SetAtPath(m, path, v).value;
      && r.Keys == m.Keys + {path[0]}
      && forall k :: k in m && k != path[0] ==> r[k] == m[k]
  {
  }

  /** Whatever a path that parts ways with the stored path leads to is left
      as it was, at every depth. */
  lemma {:induction false} SetAtPathKeepsOthers(m: map<string, Value>, path: seq<string>, v: Value, q: seq<string>)
    requires SetAtPath(m, path, v).Ok? && Diverge(path, q)
    ensures Lookup(SetAtPath(m, path, v).value, q) == Lookup(m, q)
    decreases |path|
  {
    var r := SetAtPath(m, path, v).value;
    var i :| 0 <= i < |path| && i < |q| && path[i] != q[i];
    if path[0] != q[0] {
      SetAtPathFrame(m, path, v);
    } else {
      assert i > 0 && |path| > 1;
      var child := if path[0] in m then m[path[0]] else Obj(map[]);
      assert path[1..][i - 1] != q[1..][i - 1];
      SetAtPathKeepsOthers(child.fields, path[1..], v, q[1..]);
      if |q| > 1 {
        assert Lookup(child.fields, q[1..]) == Lookup(m, q) by {
          if path[0] !in m {
            assert Lookup(map[], q[1..]) == None;
          }
        }
      }
    }
  }

  /** `nested_set` succeeds exactly when the path is not empty and never runs
      into a text value before its last key. */
  lemma {:induction false} SetAtPathSucceeds(m: map<string, Value>, path: seq<string>, v: Value)
    ensures SetAtPath(m, path, v).Ok? <==> |path| > 0 && Walkable(m, path)
    decreases |path|
  {
    if |path| > 1 && path[0] in m && m[path[0]].Obj? {
      SetAtPathSucceeds(m[path[0]].fields, path[1..], v);
    } else if |path| > 1 && path[0] !in m {
      SetAtPathOnFreshKey(m, path, v);
    }
  }

  /** A path whose first key is new is stored as a chain of new dicts. */
  lemma {:induction false} SetAtPathOnFreshKey(m: map<string, Value>, path: seq<string>, v: Value)
    requires |path| > 0 && path[0] !in m
    ensures SetAtPath(m, path, v) == Ok(m[path[0] := Chain(path[1..], v)])
    decreases |path|
  {
    if |path| > 1 {
      var empty: map<string, Value> := map[];
      SetAtPathOnFreshKey(empty, path[1..], v);
      assert path[1..][1..] == path[2..];
      assert Chain(path[1..], v) == Obj(empty[path[1] := Chain(path[2..], v)]);
    }
  }
}

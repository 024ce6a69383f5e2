/** The attribute extractor of `isaacutils.posts`.

    A post is a decoded JSON value. `get_post_attr` unwraps any number of
    `TweetWithVisibilityResults` envelopes, walks each candidate dotted path
    of the requested attribute (a missing key yields an empty dict), keeps
    the results that are not dicts, and insists that they all agree.
    `get_post_attrs` does this for every attribute of the path table.

    Python exceptions become `Err` values: `.get` on something that is not a
    dict (AttributeError), `set(...)` over a list leaf (TypeError), and the
    failed agreement assertion (AssertionError). Python's `None` is `Null`,
    so "returns None" is `Ok(Null)`. */
module Posts {
  import opened Text

  /** A decoded JSON value as Python holds it. */
  datatype Json =
    | Obj(fields: map<string, Json>)
    | Str(s: string)
    | Int(i: int)
    | Bool(b: bool)
    | Null
    | Arr(items: seq<Json>)

  /** The exceptions the extractor can raise. */
  datatype Error =
    | NotADict    // AttributeError: `.get` on a value that is not a dict
    | Unhashable  // TypeError: a collected leaf is a list, which `set` rejects
    | Conflict    // AssertionError: the collected leaves are not all equal

  datatype Result<T> = Ok(value: T) | Err(error: Error)

  /** Attribute name to its candidate dotted paths. */
  type PathTable = map<string, seq<string>>

  const Typename: string := "__typename"
  const Envelope: string := "TweetWithVisibilityResults"
  const EmptyObj: Json := Obj(map[])

  /** Python's `obj.get(key, default)`. */
  function Get(obj: Json, key: string, default: Json): (r: Result<Json>)
    ensures r.Err? <==> !obj.Obj?
    ensures r.Err? ==> r.error == NotADict
  {
    if !obj.Obj? then Err(NotADict)
    else if key in obj.fields then Ok(obj.fields[key])
    else Ok(default)
  }

  /** `post_obj.get("__typename") == "TweetWithVisibilityResults"` on a dict. */
  predicate IsEnvelope(j: Json)
  {
    j.Obj? && Typename in j.fields && j.fields[Typename] == Str(Envelope)
  }

  /** What one round of the unwrap loop moves to: `post_obj.get("tweet", {})`. */
  function Inner(j: Json): Json
    requires j.Obj?
  {
    if "tweet" in j.fields then j.fields["tweet"] else EmptyObj
  }

  /** The unwrap loop: the post it yields is a dict and not an envelope; each
      round descends into `tweet`, so it ends on every finite post. */
  function Unwrap(post: Json): (r: Result<Json>)
    ensures r.Ok? ==> r.value.Obj? && !IsEnvelope(r.value)
    ensures r.Err? ==> r.error == NotADict
    decreases IsEnvelope(post), post
  {
    if !post.Obj? then Err(NotADict)
    else if IsEnvelope(post) then Unwrap(Inner(post))
    else Ok(post)
  }

  /** The inner loop `for part in path: cursor = cursor.get(part, {})`. */
  function Walk(cursor: Json, parts: seq<string>): (r: Result<Json>)
    ensures r.Err? ==> r.error == NotADict
    decreases |parts|
  {
    if |parts| == 0 then Ok(cursor)
    else if !cursor.Obj? then Err(NotADict)
    else Walk(if parts[0] in cursor.fields then cursor.fields[parts[0]] else EmptyObj, parts[1..])
  }

  /** What one candidate path yields: `path.split(".")` walked from `obj`. */
  function Candidate(obj: Json, path: string): Result<Json>
  {
    Walk(obj, Split(path, '.'))
  }

  /** The outer loop: the non-dict results of the candidate paths, in path
      order; the first failing path stops the loop with its error. */
  function Collect(obj: Json, paths: seq<string>): (r: Result<seq<Json>>)
    ensures r.Ok? ==> |r.value| <= |paths|
    ensures r.Ok? ==> forall i :: 0 <= i < |r.value| ==> !r.value[i].Obj?
    ensures r.Err? ==> r.error == NotADict
    decreases |paths|
  {
    if |paths| == 0 then Ok([])
    else
      match Collect(obj, paths[..|paths| - 1])
      case Err(e) => Err(e)
      case Ok(vs) =>
        match Candidate(obj, paths[|paths| - 1])
        case Err(e) => Err(e)
        case Ok(v) => Ok(if v.Obj? then vs else vs + [v])
  }

  /** Python's equality on the hashable leaves: `True == 1`, `False == 0`. */
  function Canon(v: Json): Json
  {
    if v.Bool? then Int(if v.b then 1 else 0) else v
  }

  /** `len(set(values)) == 1` for hashable values. */
  predicate Agree(vs: seq<Json>)
  {
    forall i :: 0 <= i < |vs| ==> Canon(vs[i]) == Canon(vs[0])
  }

  /** `assert len(set(values)) == 1; return values[0]`. */
  function Decide(vs: seq<Json>): (r: Result<Json>)
    requires vs != []
    ensures r.Ok? ==> r.value in vs && forall i :: 0 <= i < |vs| ==> Canon(vs[i]) == Canon(r.value)
    ensures r.Err? ==> r.error == Unhashable || r.error == Conflict
  {
    if exists i :: 0 <= i < |vs| && vs[i].Arr? then Err(Unhashable)
    else if !Agree(vs) then Err(Conflict)
    else Ok(vs[0])
  }

  /** `get_post_attr` as a function of its inputs. */
  function PostAttr(post: Json, attr: string, table: PathTable): (r: Result<Json>)
    ensures attr != Typename && r.Ok? ==> Unwrap(post).Ok? && !r.value.Obj?
    ensures attr != Typename && r.Ok? && r.value != Null ==> attr in table
  {
    if attr == Typename then Get(post, Typename, Null)
    else
      match Unwrap(post)
      case Err(e) => Err(e)
      case Ok(obj) =>
        if attr !in table then Ok(Null)
        else
          match Collect(obj, table[attr])
          case Err(e) => Err(e)
          case Ok(vs) => if vs == [] then Ok(Null) else Decide(vs)
  }

  /** An error met on a prefix of the candidate paths is the error of the
      whole collection. */
  lemma {:induction false} CollectErrPrefix(obj: Json, paths: seq<string>, k: nat, e: Error)
    requires k <= |paths|
    requires Collect(obj, paths[..k]) == Err(e)
    ensures Collect(obj, paths) == Err(e)
    decreases |paths|
  {
    if k < |paths| {
      var init := paths[..|paths| - 1];
      assert init[..k] == paths[..k];
      CollectErrPrefix(obj, init, k, e);
    } else {
      assert paths[..k] == paths;
    }
  }

  /** `get_post_attr`, with the loops of the source. */
  method GetPostAttr(post: Json, attr: string, table: PathTable) returns (r: Result<Json>)
    ensures r == PostAttr(post, attr, table)
  {
    if attr == Typename {
      return Get(post, Typename, Null);
    }
    var obj := post;
    while true
      invariant Unwrap(obj) == Unwrap(post)
      decreases IsEnvelope(obj), obj
    {
      if !obj.Obj? {
        return Err(NotADict);
      }
      if !IsEnvelope(obj) {
        break;
      }
      obj := Inner(obj);
    }
    if attr !in table {
      return Ok(Null);
    }
    var paths := table[attr];
    var values: seq<Json> := [];
    for i := 0 to |paths|
      invariant Collect(obj, paths[..i]) == Ok(values)
    {
      var parts := Split(paths[i], '.');
      var cursor := obj;
      for j := 0 to |parts|
        invariant Walk(cursor, parts[j..]) == Walk(obj, parts)
      {
        if !cursor.Obj? {
          assert paths[..i + 1][..i] == paths[..i];
          CollectErrPrefix(obj, paths, i + 1, NotADict);
          return Err(NotADict);
        }
        assert parts[j..][1..] == parts[j + 1..];
        cursor := if parts[j] in cursor.fields then cursor.fields[parts[j]] else EmptyObj;
      }
      assert paths[..i + 1][..i] == paths[..i];
      if !cursor.Obj? {
        values := values + [cursor];
      }
    }
    assert paths[..|paths|] == paths;
    if values == [] {
      return Ok(Null);
    }
    r := Decide(values);
  }

  /** `get_post_attrs`: one entry per attribute of the table, each the value
      `get_post_attr` gives it; the first attribute (in the table's key order
      `order`) whose extraction raises makes the whole call raise. */
  method GetPostAttrs(post: Json, table: PathTable, order: seq<string>)
    returns (r: Result<map<string, Json>>)
    requires forall k :: k in order <==> k in table
    ensures r.Ok? <==> forall k :: k in table ==> PostAttr(post, k, table).Ok?
    ensures r.Ok? ==> r.value.Keys == table.Keys
    ensures r.Ok? ==> forall k :: k in table ==> PostAttr(post, k, table) == Ok(r.value[k])
    ensures r.Err? ==> exists i :: 0 <= i < |order| && PostAttr(post, order[i], table) == Err(r.error)
                                   && forall j :: 0 <= j < i ==> PostAttr(post, order[j], table).Ok?
  {
    var results: map<string, Json> := map[];
    for i := 0 to |order|
      invariant forall k :: k in results <==> k in order[..i]
      invariant forall k :: k in results ==> PostAttr(post, k, table) == Ok(results[k])
    {
      var v := GetPostAttr(post, order[i], table);
      if v.Err? {
        assert forall j :: 0 <= j < i ==> order[j] in order[..i];
        return Err(v.error);
      }
      results := results[order[i] := v.value];
      assert order[..i + 1] == order[..i] + [order[i]];
    }
    assert order[..|order|] == order;
    r := Ok(results);
  }

  /** Requesting `__typename` reads the key of the post as given, before any
      unwrapping and whatever the path table says: an envelope reports its
      own type. */
  lemma TypenameFirst(post: Json, table: PathTable)
    ensures post.Obj? ==> PostAttr(post, Typename, table)
                          == Ok(if Typename in post.fields then post.fields[Typename] else Null)
    ensures !post.Obj? ==> PostAttr(post, Typename, table) == Err(NotADict)
    ensures IsEnvelope(post) ==> PostAttr(post, Typename, table) == Ok(Str(Envelope))
  {
  }

  /** Unwrapping an unwrapped post changes nothing. */
  lemma UnwrapIdempotent(post: Json)
    ensures Unwrap(post).Ok? ==> Unwrap(Unwrap(post).value) == Unwrap(post)
  {
  }

  /** An attribute missing from the table yields None without failing, once
      the envelopes are unwrapped (the unwrapping runs first and may raise). */
  lemma UnknownAttr(post: Json, attr: string, table: PathTable)
    requires attr != Typename && attr !in table
    ensures PostAttr(post, attr, table).Ok? <==> Unwrap(post).Ok?
    ensures PostAttr(post, attr, table).Ok? ==> PostAttr(post, attr, table).value == Null
    ensures post.Obj? && !IsEnvelope(post) ==> PostAttr(post, attr, table) == Ok(Null)
  {
  }

  /** Once a key is missing, every later step stays on the empty dict. */
  lemma {:induction false} WalkFromEmpty(parts: seq<string>)
    ensures Walk(EmptyObj, parts) == Ok(EmptyObj)
    decreases |parts|
  {
    if |parts| > 0 {
      WalkFromEmpty(parts[1..]);
    }
  }

  /** A path whose first key is missing contributes the empty dict, which is
      not collected. */
  lemma WalkMissingKey(cursor: Json, parts: seq<string>)
    requires cursor.Obj? && |parts| > 0 && parts[0] !in cursor.fields
    ensures Walk(cursor, parts) == Ok(EmptyObj)
  {
    WalkFromEmpty(parts[1..]);
  }

  /** Walking on from a present value that is not a dict raises. */
  lemma WalkIntoScalar(cursor: Json, parts: seq<string>)
    requires !cursor.Obj? && |parts| > 0
    ensures Walk(cursor, parts) == Err(NotADict)
  {
  }

  /** Walking `p + q` is walking `p`, then `q` from where `p` ended. */
  lemma {:induction false} WalkAppend(cursor: Json, p: seq<string>, q: seq<string>)
    ensures Walk(cursor, p + q) == match Walk(cursor, p)
                                   case Ok(c) => Walk(c, q)
                                   case Err(e) => Err(e)
    decreases |p|
  {
    if |p| == 0 {
      assert p + q == q;
    } else if cursor.Obj? {
      assert (p + q)[0] == p[0] && (p + q)[1..] == p[1..] + q;
      WalkAppend(if p[0] in cursor.fields then cursor.fields[p[0]] else EmptyObj, p[1..], q);
    }
  }

  /** The collection succeeds exactly when every candidate path walks without
      raising. */
  lemma {:induction false} CollectOk(obj: Json, paths: seq<string>)
    ensures Collect(obj, paths).Ok? <==> forall i :: 0 <= i < |paths| ==> Candidate(obj, paths[i]).Ok?
    decreases |paths|
  {
    if |paths| > 0 {
      var init := paths[..|paths| - 1];
      CollectOk(obj, init);
      assert forall i :: 0 <= i < |init| ==> init[i] == paths[i];
    }
  }

  /** When the collection fails, its error is that of the first path that
      raises. */
  lemma {:induction false} CollectFirstError(obj: Json, paths: seq<string>)
    requires Collect(obj, paths).Err?
    ensures exists i :: 0 <= i < |paths| && Candidate(obj, paths[i]) == Err(Collect(obj, paths).error)
                        && forall j :: 0 <= j < i ==> Candidate(obj, paths[j]).Ok?
    decreases |paths|
  {
    var init := paths[..|paths| - 1];
    assert forall i :: 0 <= i < |init| ==> init[i] == paths[i];
    if Collect(obj, init).Err? {
      CollectFirstError(obj, init);
    } else {
      CollectOk(obj, init);
      assert Candidate(obj, paths[|paths| - 1]) == Err(Collect(obj, paths).error);
    }
  }

  /** The collected values are exactly the non-dict results of the candidate
      paths: each of them is collected, and nothing else is. */
  lemma {:induction false} CollectLeaves(obj: Json, paths: seq<string>)
    requires Collect(obj, paths).Ok?
    ensures forall i :: 0 <= i < |paths| ==> Candidate(obj, paths[i]).Ok?
    ensures forall i :: 0 <= i < |paths| && !Candidate(obj, paths[i]).value.Obj?
                        ==> Candidate(obj, paths[i]).value in Collect(obj, paths).value
    ensures forall v :: v in Collect(obj, paths).value
                        ==> exists i :: 0 <= i < |paths| && Candidate(obj, paths[i]) == Ok(v)
    decreases |paths|
  {
    CollectOk(obj, paths);
    if |paths| > 0 {
      var init := paths[..|paths| - 1];
      assert forall i :: 0 <= i < |init| ==> init[i] == paths[i];
      CollectLeaves(obj, init);
    }
  }

  /** Collected values keep the order of the candidate paths: the first
      path's leaf, if any, comes before all the others. */
  lemma {:induction false} CollectCons(obj: Json, p: string, paths: seq<string>)
    ensures Collect(obj, [p] + paths) ==
      match Candidate(obj, p)
      case Err(e) => Err(e)
      case Ok(v) =>
        match Collect(obj, paths)
        case Err(e) => Err(e)
        case Ok(vs) => Ok(if v.Obj? then vs else [v] + vs)
    decreases |paths|
  {
    var all := [p] + paths;
    if |paths| == 0 {
      assert all[..0] == [] && all[0] == p;
      assert Collect(obj, all[..0]) == Ok([]);
      assert forall v: Json :: [] + [v] == [v] + [];
    } else {
      var init := paths[..|paths| - 1];
      assert all[..|all| - 1] == [p] + init;
      assert all[|all| - 1] == paths[|paths| - 1];
      CollectCons(obj, p, init);
      match Candidate(obj, p)
      case Err(e) =>
      case Ok(v) =>
        match Collect(obj, init)
        case Err(e) =>
        case Ok(vs) =>
          match Candidate(obj, paths[|paths| - 1])
          case Err(e) =>
          case Ok(w) =>
            if !v.Obj? && !w.Obj? {
              assert [v] + vs + [w] == [v] + (vs + [w]);
            }
    }
  }

  /** Paths that all end on dicts (or on missing keys) collect nothing. */
  lemma {:induction false} CollectAllDicts(obj: Json, paths: seq<string>)
    requires forall i :: 0 <= i < |paths| ==> Candidate(obj, paths[i]).Ok?
    requires forall i :: 0 <= i < |paths| ==> Candidate(obj, paths[i]).value.Obj?
    ensures Collect(obj, paths) == Ok([])
    decreases |paths|
  {
    if |paths| > 0 {
      var init := paths[..|paths| - 1];
      assert forall i :: 0 <= i < |init| ==> init[i] == paths[i];
      CollectAllDicts(obj, init);
    }
  }

  /** When no candidate path reaches a value that is not a dict, the
      attribute is None. */
  lemma NoLeafIsNull(post: Json, attr: string, table: PathTable)
    requires attr != Typename && attr in table && Unwrap(post).Ok?
    requires forall i :: 0 <= i < |table[attr]| ==> Candidate(Unwrap(post).value, table[attr][i]).Ok?
    requires forall i :: 0 <= i < |table[attr]| ==> Candidate(Unwrap(post).value, table[attr][i]).value.Obj?
    ensures PostAttr(post, attr, table) == Ok(Null)
  {
    CollectAllDicts(Unwrap(post).value, table[attr]);
  }

  /** Once leaves are collected: the result is the first leaf and equals
      every leaf (as Python compares them); disagreeing hashable leaves make
      the extraction fail, whatever the attribute ("text" included); a list
      leaf fails before any comparison. */
  lemma LeavesAgree(post: Json, attr: string, table: PathTable)
    requires attr != Typename && attr in table && Unwrap(post).Ok?
    requires Collect(Unwrap(post).value, table[attr]).Ok?
    requires Collect(Unwrap(post).value, table[attr]).value != []
    ensures var vs := Collect(Unwrap(post).value, table[attr]).value;
            var r := PostAttr(post, attr, table);
            && (r.Ok? ==> r.value == vs[0] && forall i :: 0 <= i < |vs| ==> Canon(vs[i]) == Canon(r.value))
            && (r == Err(Unhashable) <==> exists i :: 0 <= i < |vs| && vs[i].Arr?)
            && (r == Err(Conflict) <==> (forall i :: 0 <= i < |vs| ==> !vs[i].Arr?)
                                        && exists i, j :: 0 <= i < |vs| && 0 <= j < |vs| && Canon(vs[i]) != Canon(vs[j]))
            && (r.Ok? || r == Err(Unhashable) || r == Err(Conflict))
  {
  }

  /** `path.split(".")` of a dotted path built from dot-free keys gives those
      keys back. */
  lemma SplitDotted(keys: seq<string>)
    requires |keys| >= 1
    requires forall i :: 0 <= i < |keys| ==> '.' !in keys[i]
    ensures Split(Join(keys, "."), '.') == keys
  {
    assert ['.'] + "" == ".";
    SplitJoin(keys, '.', "");
    PrefixedNothing(keys[1..]);
  }

  /** An example table with the two candidate paths of "text":
      "note_tweet.note_tweet_results.result.text" and "legacy.full_text". */
  const NoteKeys: seq<string> := ["note_tweet", "note_tweet_results", "result", "text"]
  const LegacyKeys: seq<string> := ["legacy", "full_text"]
  const TextTable: PathTable := map["text" := [Join(NoteKeys, "."), Join(LegacyKeys, ".")]]

  /** The candidate paths of "text" split into their keys. */
  lemma TextPathsSplit()
    ensures Split(TextTable["text"][0], '.') == NoteKeys
    ensures Split(TextTable["text"][1], '.') == LegacyKeys
  {
    SplitDotted(NoteKeys);
    SplitDotted(LegacyKeys);
  }

  function Legacy(text: string): Json
  {
    Obj(map["full_text" := Str(text)])
  }

  function Note(text: string): Json
  {
    Obj(map["note_tweet_results" := Obj(map["result" := Obj(map["text" := Str(text)])])])
  }

  /** The note path reaches the text of a note. */
  lemma WalkNote(m: map<string, Json>, text: string)
    requires "note_tweet" in m && m["note_tweet"] == Note(text)
    ensures Walk(Obj(m), NoteKeys) == Ok(Str(text))
  {
    var n := NoteKeys;
    assert n[1..][1..][1..][1..] == [];
  }

  /** The legacy path reaches the legacy text. */
  lemma WalkLegacy(m: map<string, Json>, text: string)
    requires "legacy" in m && m["legacy"] == Legacy(text)
    ensures Walk(Obj(m), LegacyKeys) == Ok(Str(text))
  {
    var n := LegacyKeys;
    assert n[1..][1..] == [];
  }

  /** Two candidate paths that both walk without raising. */
  lemma CollectPair(obj: Json, p: string, q: string)
    requires Candidate(obj, p).Ok? && Candidate(obj, q).Ok?
    ensures var v, w := Candidate(obj, p).value, Candidate(obj, q).value;
            Collect(obj, [p, q]) == Ok((if v.Obj? then [] else [v]) + (if w.Obj? then [] else [w]))
  {
    assert [p, q][..1] == [p] && [p][..0] == [] && [p][0] == p && [p, q][1] == q;
    assert Collect(obj, [p][..0]) == Ok([]);
    var v, w := Candidate(obj, p).value, Candidate(obj, q).value;
    assert [] + [v] == [v];
    var first := if v.Obj? then [] else [v];
    assert Collect(obj, [p]) == Ok(first);
    assert first + [w] == first + (if w.Obj? then [] else [w]) || w.Obj?;
    assert first + [] == first;
  }

  /** Only the legacy field present: its text is the result. */
  lemma LegacyOnly(text: string)
    ensures PostAttr(Obj(map["legacy" := Legacy(text)]), "text", TextTable) == Ok(Str(text))
  {
    TextPathsSplit();
    var m := map["legacy" := Legacy(text)];
    var paths := TextTable["text"];
    WalkMissingKey(Obj(m), NoteKeys);
    WalkLegacy(m, text);
    CollectPair(Obj(m), paths[0], paths[1]);
    assert paths == [paths[0], paths[1]];
    assert [] + [Str(text)] == [Str(text)];
  }

  /** An envelope around the post is unwrapped before the paths are walked. */
  lemma EnvelopeUnwrapped(text: string)
    ensures PostAttr(Obj(map[Typename := Str(Envelope),
                             "tweet" := Obj(map["legacy" := Legacy(text)])]), "text", TextTable)
            == Ok(Str(text))
  {
    LegacyOnly(text);
  }

  /** Two present and different texts make the extraction fail: the code
      asserts agreement for "text" like for any other attribute. */
  lemma TextConflict(long: string, short: string)
    requires long != short
    ensures PostAttr(Obj(map["note_tweet" := Note(long), "legacy" := Legacy(short)]), "text", TextTable)
            == Err(Conflict)
  {
    TextPathsSplit();
    var m := map["note_tweet" := Note(long), "legacy" := Legacy(short)];
    var paths := TextTable["text"];
    WalkNote(m, long);
    WalkLegacy(m, short);
    CollectPair(Obj(m), paths[0], paths[1]);
    assert paths == [paths[0], paths[1]];
    var vs := [Str(long), Str(short)];
    assert [Str(long)] + [Str(short)] == vs;
    assert Canon(vs[1]) != Canon(vs[0]);
  }

  const TextAttr: string := "text"

  /** `get_post_attr` as its docstring describes "text": the first candidate
      path that reaches a value wins (the note text before the legacy text),
      with no agreement assertion; every other attribute is as written. */
  function PostAttrDocumented(post: Json, attr: string, table: PathTable): (r: Result<Json>)
    ensures attr != TextAttr ==> r == PostAttr(post, attr, table)
    ensures attr == TextAttr ==> r != Err(Conflict) && r != Err(Unhashable)
  {
    if attr != TextAttr then PostAttr(post, attr, table)
    else
      match Unwrap(post)
      case Err(e) => Err(e)
      case Ok(obj) =>
        if attr !in table then Ok(Null)
        else
          match Collect(obj, table[attr])
          case Err(e) => Err(e)
          case Ok(vs) => if vs == [] then Ok(Null) else Ok(vs[0])
  }

  /** The path walks without raising and ends on a dict (or a missing key). */
  predicate EndsOnDict(obj: Json, path: string)
  {
    Candidate(obj, path).Ok? && Candidate(obj, path).value.Obj?
  }

  /** The first collected value comes from the first path that reaches a
      value that is not a dict: every earlier path ends on a dict. */
  lemma {:induction false} FirstLeaf(obj: Json, paths: seq<string>)
    requires Collect(obj, paths).Ok? && Collect(obj, paths).value != []
    ensures exists i :: 0 <= i < |paths| && Candidate(obj, paths[i]) == Ok(Collect(obj, paths).value[0])
                        && forall j :: 0 <= j < i ==> EndsOnDict(obj, paths[j])
    decreases |paths|
  {
    var p, rest := paths[0], paths[1..];
    assert paths == [p] + rest;
    CollectCons(obj, p, rest);
    var v := Candidate(obj, p).value;
    if v.Obj? {
      FirstLeaf(obj, rest);
      var i :| 0 <= i < |rest| && Candidate(obj, rest[i]) == Ok(Collect(obj, rest).value[0])
               && forall j :: 0 <= j < i ==> EndsOnDict(obj, rest[j]);
      assert paths[i + 1] == rest[i];
      assert forall j :: 1 <= j < i + 1 ==> paths[j] == rest[j - 1];
    } else {
      assert Candidate(obj, paths[0]) == Ok(Collect(obj, paths).value[0]);
    }
  }

  /** As documented, "text" is None when no candidate path reaches a value
      that is not a dict, and otherwise the value of the first path that
      does; it never raises for disagreement. */
  lemma DocumentedTextIsFirstLeaf(post: Json, table: PathTable)
    requires TextAttr in table && Unwrap(post).Ok?
    requires Collect(Unwrap(post).value, table[TextAttr]).Ok?
    ensures var paths, obj := table[TextAttr], Unwrap(post).value;
            var r := PostAttrDocumented(post, TextAttr, table);
            && r.Ok?
            && ((forall i :: 0 <= i < |paths| ==> EndsOnDict(obj, paths[i])) ==> r.value == Null)
            && ((exists i :: 0 <= i < |paths| && !EndsOnDict(obj, paths[i])) ==>
                  exists i :: 0 <= i < |paths| && Candidate(obj, paths[i]) == Ok(r.value) && !r.value.Obj?
                              && forall j :: 0 <= j < i ==> EndsOnDict(obj, paths[j]))
  {
    var paths, obj := table[TextAttr], Unwrap(post).value;
    CollectLeaves(obj, paths);
    var vs := Collect(obj, paths).value;
    if vs == [] {
      assert forall i :: 0 <= i < |paths| ==> EndsOnDict(obj, paths[i]);
    } else {
      FirstLeaf(obj, paths);
      assert !vs[0].Obj?;
    }
  }

  /** With both texts present the documented extraction returns the note
      text, where the code as written raises (`TextConflict`). */
  lemma NoteTextPreferred(long: string, short: string)
    ensures PostAttrDocumented(Obj(map["note_tweet" := Note(long), "legacy" := Legacy(short)]), TextAttr, TextTable)
            == Ok(Str(long))
  {
    TextPathsSplit();
    var m := map["note_tweet" := Note(long), "legacy" := Legacy(short)];
    var paths := TextTable[TextAttr];
    WalkNote(m, long);
    WalkLegacy(m, short);
    CollectPair(Obj(m), paths[0], paths[1]);
    assert paths == [paths[0], paths[1]];
    assert [Str(long)] + [Str(short)] == [Str(long), Str(short)];
  }

  /** Without a note the documented extraction falls back to the legacy text. */
  lemma LegacyTextFallback(text: string)
    ensures PostAttrDocumented(Obj(map["legacy" := Legacy(text)]), TextAttr, TextTable) == Ok(Str(text))
  {
    LegacyOnly(text);
  }
}

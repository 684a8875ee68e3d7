/** Changing keys of a settings file: plain, block-wise and nested updates of a
    JSON object, where writing null removes the key. */
module SettingsFile {
  import opened Prelude
  import opened Json

  type Update = (string, Json)

  function ApplyOne(obj: Object, u: Update): Object {
    if u.1.Null? then obj - {u.0} else obj[u.0 := u.1]
  }

  function Apply(obj: Object, updates: seq<Update>): Object {
    if updates == [] then obj
    else ApplyOne(Apply(obj, updates[..|updates| - 1]), updates[|updates| - 1])
  }

  /** A block's object; anything else in its place counts as an empty one. */
  function Child(obj: Object, block: string): Object {
    if block in obj && obj[block].Obj? then obj[block].fields else map[]
  }

  function UpdateNested(obj: Object, blocks: seq<string>, updates: seq<Update>): Object
    decreases |blocks|
  {
    if blocks == [] then Apply(obj, updates)
    else obj[blocks[0] := Obj(UpdateNested(Child(obj, blocks[0]), blocks[1..], updates))]
  }

  function UpdateBlock(obj: Object, block: string, updates: seq<Update>): Object {
    var nested := Apply(Child(obj, block), updates);
    if nested == map[] then obj - {block} else obj[block := Obj(nested)]
  }

  // ---- The loops of the program

  method ApplyUpdates(obj: Object, updates: seq<Update>) returns (out: Object)
    ensures out == Apply(obj, updates)
  {
    out := obj;
    for i := 0 to |updates|
      invariant out == Apply(obj, updates[..i])
    {
      assert updates[..i + 1][..i] == updates[..i];
      var (key, value) := updates[i];
      if value.Null? {
        out := out - {key};
      } else {
        out := out[key := value];
      }
    }
    assert updates[..|updates|] == updates;
  }

  // The object the walk has reached.
  function Descend(obj: Object, blocks: seq<string>): Object {
    if blocks == [] then obj
    else Child(Descend(obj, blocks[..|blocks| - 1]), blocks[|blocks| - 1])
  }

  /** Walk down to the innermost block, creating objects on the way, change it
      there, and have the change seen through every enclosing object. */
  method UpdateNestedBlocks(obj: Object, blocks: seq<string>, updates: seq<Update>) returns (out: Object)
    ensures out == UpdateNested(obj, blocks, updates)
  {
    var enclosing: seq<Object> := [];
    out := obj;
    for i := 0 to |blocks|
      invariant |enclosing| == i && out == Descend(obj, blocks[..i])
      invariant forall k :: 0 <= k < i ==> enclosing[k] == Descend(obj, blocks[..k])
    {
      assert blocks[..i + 1][..i] == blocks[..i];
      enclosing := enclosing + [out];
      out := if blocks[i] in out && out[blocks[i]].Obj? then out[blocks[i]].fields else map[];
    }
    out := ApplyUpdates(out, updates);
    var i := |blocks|;
    while i > 0
      invariant 0 <= i <= |blocks|
      invariant out == UpdateNested(Descend(obj, blocks[..i]), blocks[i..], updates)
    {
      assert blocks[..i][..i - 1] == blocks[..i - 1];
      assert blocks[i - 1..][1..] == blocks[i..];
      i := i - 1;
      out := enclosing[i][blocks[i] := Obj(out)];
    }
    assert blocks[..0] == [] && blocks[0..] == blocks;
  }

  method UpdateOneBlock(obj: Object, block: string, updates: seq<Update>) returns (out: Object)
    ensures out == UpdateBlock(obj, block, updates)
  {
    var nested := if block in obj && obj[block].Obj? then obj[block].fields else map[];
    out := obj - {block};
    nested := ApplyUpdates(nested, updates);
    if nested == map[] {
      out := out - {block};
    } else {
      out := out[block := Obj(nested)];
      assert out == obj[block := Obj(nested)];
    }
  }

  // ---- What one object holds after updates

  /** The last value written to a key, if any update writes it. */
  function LastWrite(updates: seq<Update>, key: string): Option<Json> {
    if updates == [] then None
    else if updates[|updates| - 1].0 == key then Some(updates[|updates| - 1].1)
    else LastWrite(updates[..|updates| - 1], key)
  }

  function Lookup(obj: Object, key: string): Option<Json> {
    if key in obj then Some(obj[key]) else None
  }

  // What a key holds after it was written: null means it is gone.
  function Held(write: Json): Option<Json> {
    if write.Null? then None else Some(write)
  }

  lemma {:induction false} ApplyByKey(obj: Object, updates: seq<Update>, key: string)
    ensures Lookup(Apply(obj, updates), key) ==
            match LastWrite(updates, key)
            case Some(value) => Held(value)
            case None => Lookup(obj, key)
  {
    if updates != [] {
      ApplyByKey(obj, updates[..|updates| - 1], key);
    }
  }

  lemma SameLookups(a: Object, b: Object)
    requires forall key :: Lookup(a, key) == Lookup(b, key)
    ensures a == b
  {
    forall key | key in a || key in b
      ensures key in a && key in b && a[key] == b[key]
    {
      assert Lookup(a, key) == Lookup(b, key);
    }
  }

  lemma {:induction false} ApplyAppend(obj: Object, first: seq<Update>, second: seq<Update>)
    ensures Apply(Apply(obj, first), second) == Apply(obj, first + second)
  {
    if second == [] {
      assert first + second == first;
    } else {
      ApplyAppend(obj, first, second[..|second| - 1]);
      assert (first + second)[..|first + second| - 1] == first + second[..|second| - 1];
    }
  }

  lemma ApplyTwice(obj: Object, updates: seq<Update>)
    ensures Apply(Apply(obj, updates), updates) == Apply(obj, updates)
  {
    var once := Apply(obj, updates);
    forall key ensures Lookup(Apply(once, updates), key) == Lookup(once, key) {
      ApplyByKey(once, updates, key);
      ApplyByKey(obj, updates, key);
    }
    SameLookups(Apply(once, updates), once);
  }

  // ---- The laws of the nested update

  /** A path that goes through fields only. */
  function Fields(keys: seq<string>): seq<Hop> {
    seq(|keys|, i requires 0 <= i < |keys| => Field(keys[i]))
  }

  lemma UnderFirst(keys: seq<string>)
    requires keys != []
    ensures Fields(keys)[0] == Field(keys[0]) && Fields(keys)[1..] == Fields(keys[1..])
  {
  }

  lemma {:induction false} ChildAt(obj: Object, block: string, path: seq<Hop>)
    requires path != []
    ensures At(Obj(obj), [Field(block)] + path) == At(Obj(Child(obj, block)), path) ||
            (block in obj && !obj[block].Obj?)
    ensures block in obj && obj[block].Obj? ==> At(Obj(obj), [Field(block)] + path) == At(obj[block], path)
    ensures block in obj && !obj[block].Obj? && path[0].Field? ==> At(Obj(obj), [Field(block)] + path) == None
  {
    assert ([Field(block)] + path)[1..] == path;
  }

  /** Reading back a written key gives its last written value; null removed it. */
  lemma {:induction false} ReadBack(obj: Object, blocks: seq<string>, updates: seq<Update>, key: string)
    requires LastWrite(updates, key).Some?
    ensures At(Obj(UpdateNested(obj, blocks, updates)), Fields(blocks + [key])) ==
            if LastWrite(updates, key).value.Null? then None else LastWrite(updates, key)
    decreases |blocks|
  {
    var path := Fields(blocks + [key]);
    UnderFirst(blocks + [key]);
    if blocks == [] {
      ApplyByKey(obj, updates, key);
      assert path[1..] == [];
    } else {
      assert (blocks + [key])[1..] == blocks[1..] + [key];
      ReadBack(Child(obj, blocks[0]), blocks[1..], updates, key);
    }
  }

  /** A path is off the update when it neither leads only to an enclosing object
      nor into a written key. */
  predicate Off(path: seq<Hop>, blocks: seq<string>, updates: seq<Update>) {
    && !(path <= Fields(blocks))
    && forall i :: 0 <= i < |updates| ==> !(Fields(blocks + [updates[i].0]) <= path)
  }

  lemma {:induction false} UnwrittenKeys(updates: seq<Update>, key: string)
    requires forall i :: 0 <= i < |updates| ==> updates[i].0 != key
    ensures LastWrite(updates, key) == None
  {
    if updates != [] {
      UnwrittenKeys(updates[..|updates| - 1], key);
    }
  }

  // A path that takes no item of a block.
  lemma {:induction false} FieldPathsAreKept(obj: Object, blocks: seq<string>, updates: seq<Update>, path: seq<Hop>)
    requires Off(path, blocks, updates)
    requires forall k :: 0 < k <= |blocks| && k < |path| && path[..k] == Fields(blocks)[..k] ==> path[k].Field?
    ensures At(Obj(UpdateNested(obj, blocks, updates)), path) == At(Obj(obj), path)
    decreases |blocks|
  {
    if path[0].Field? {
      var key := path[0].key;
      if blocks == [] {
        forall i | 0 <= i < |updates| ensures updates[i].0 != key {
          assert Fields([] + [updates[i].0]) == [Field(updates[i].0)];
          assert [path[0]] <= path;
        }
        UnwrittenKeys(updates, key);
        ApplyByKey(obj, updates, key);
      } else if key == blocks[0] {
        UnderFirst(blocks);
        var rest := path[1..];
        assert path == [path[0]] + rest;
        assert rest != [] by { assert [path[0]] <= Fields(blocks); }
        assert path[..1] == Fields(blocks)[..1];
        assert rest[0].Field?;
        assert Off(rest, blocks[1..], updates) by {
          forall i | 0 <= i < |updates| ensures !(Fields(blocks[1..] + [updates[i].0]) <= rest) {
            UnderFirst(blocks + [updates[i].0]);
            assert (blocks + [updates[i].0])[1..] == blocks[1..] + [updates[i].0];
            assert Fields(blocks + [updates[i].0]) == [path[0]] + Fields(blocks[1..] + [updates[i].0]);
          }
          assert Fields(blocks) == [path[0]] + Fields(blocks[1..]);
        }
        forall k | 0 < k <= |blocks[1..]| && k < |rest| && rest[..k] == Fields(blocks[1..])[..k]
          ensures rest[k].Field?
        {
          assert path[..k + 1] == [path[0]] + rest[..k];
          assert Fields(blocks)[..k + 1] == [path[0]] + Fields(blocks[1..])[..k];
        }
        FieldPathsAreKept(Child(obj, key), blocks[1..], updates, rest);
        ChildAt(obj, key, rest);
      }
    }
  }

  /** Every enclosing block ends up an object. */
  lemma {:induction false} BlocksAreObjects(obj: Object, blocks: seq<string>, updates: seq<Update>, k: nat)
    requires k <= |blocks|
    ensures var block := At(Obj(UpdateNested(obj, blocks, updates)), Fields(blocks[..k]));
            block.Some? && block.value.Obj?
    decreases |blocks|
  {
    if k > 0 {
      UnderFirst(blocks[..k]);
      assert blocks[..k][1..] == blocks[1..][..k - 1];
      BlocksAreObjects(Child(obj, blocks[0]), blocks[1..], updates, k - 1);
    }
  }

  lemma {:induction false} AtAppend(v: Json, path: seq<Hop>, more: seq<Hop>)
    requires At(v, path).Some?
    ensures At(v, path + more) == At(At(v, path).value, more)
    decreases |path|
  {
    if path == [] {
      assert path + more == more;
    } else {
      assert (path + more)[1..] == path[1..] + more;
      match (v, path[0])
      case (Obj(fields), Field(key)) => AtAppend(fields[key], path[1..], more);
      case (Arr(items), Item(index)) => AtAppend(items[index], path[1..], more);
    }
  }

  /** The path takes an array item where the update needs a block. */
  predicate EntersItem(path: seq<Hop>, blocks: seq<string>) {
    exists k :: 0 < k <= |blocks| && k < |path| && path[..k] == Fields(blocks)[..k] && path[k].Item?
  }

  lemma BlocksHaveNoItems(obj: Object, blocks: seq<string>, updates: seq<Update>, path: seq<Hop>)
    requires EntersItem(path, blocks)
    ensures At(Obj(UpdateNested(obj, blocks, updates)), path) == None
  {
    var k :| 0 < k <= |blocks| && k < |path| && path[..k] == Fields(blocks)[..k] && path[k].Item?;
    assert Fields(blocks)[..k] == Fields(blocks[..k]);
    BlocksAreObjects(obj, blocks, updates, k);
    assert path == path[..k] + path[k..];
    AtAppend(Obj(UpdateNested(obj, blocks, updates)), path[..k], path[k..]);
  }

  /** Every path off the update leads to what it led to before, at every depth,
      if and only if it leads to nothing in an array that stood where the update
      needs a block. */
  lemma OffPathsAreKeptExactlyWhen(obj: Object, blocks: seq<string>, updates: seq<Update>, path: seq<Hop>)
    requires Off(path, blocks, updates)
    ensures At(Obj(UpdateNested(obj, blocks, updates)), path) == At(Obj(obj), path) <==>
            (EntersItem(path, blocks) ==> At(Obj(obj), path) == None)
  {
    if EntersItem(path, blocks) {
      BlocksHaveNoItems(obj, blocks, updates, path);
    } else {
      FieldPathsAreKept(obj, blocks, updates, path);
    }
  }

  /** The failing case: what an array held in a block's place is gone. */
  lemma ArraysInPlaceOfBlocksAreLost()
    ensures var obj: Object := map["compaction" := Arr([Bool(true)])];
            var updates := [("enabled", Bool(true))];
            var path := [Field("compaction"), Item(0)];
            && Off(path, ["compaction"], updates)
            && At(Obj(obj), path) == Some(Bool(true))
            && At(Obj(UpdateNested(obj, ["compaction"], updates)), path) == None
  {
    var obj: Object := map["compaction" := Arr([Bool(true)])];
    var updates := [("enabled", Bool(true))];
    var path := [Field("compaction"), Item(0)];
    assert path[1..] == [Item(0)] && path[1..][1..] == [];
    assert Fields(["compaction", "enabled"])[1] == Field("enabled") != path[1];
    assert ["compaction"] + ["enabled"] == ["compaction", "enabled"];
    assert |Fields(["compaction"])| == 1;
    assert path[..1] == Fields(["compaction"])[..1] && path[1].Item?;
    assert EntersItem(path, ["compaction"]);
    BlocksHaveNoItems(obj, ["compaction"], updates, path);
  }

  /** Two updates of the same block are one update with both lists of writes. */
  lemma {:induction false} NestedUpdatesCompose(obj: Object, blocks: seq<string>, first: seq<Update>, second: seq<Update>)
    ensures UpdateNested(UpdateNested(obj, blocks, first), blocks, second) == UpdateNested(obj, blocks, first + second)
    decreases |blocks|
  {
    if blocks == [] {
      ApplyAppend(obj, first, second);
    } else {
      NestedUpdatesCompose(Child(obj, blocks[0]), blocks[1..], first, second);
    }
  }

  /** Repeating an update changes nothing. */
  lemma {:induction false} NestedUpdateTwice(obj: Object, blocks: seq<string>, updates: seq<Update>)
    ensures UpdateNested(UpdateNested(obj, blocks, updates), blocks, updates) == UpdateNested(obj, blocks, updates)
    decreases |blocks|
  {
    if blocks == [] {
      ApplyTwice(obj, updates);
    } else {
      NestedUpdateTwice(Child(obj, blocks[0]), blocks[1..], updates);
    }
  }

  /** Every block on the way is an object already, and in the innermost one every
      written key already holds its last write. */
  ghost predicate InPlace(obj: Object, blocks: seq<string>, updates: seq<Update>)
    decreases |blocks|
  {
    if blocks == [] then
      forall key :: LastWrite(updates, key).Some? ==> Lookup(obj, key) == Held(LastWrite(updates, key).value)
    else
      blocks[0] in obj && obj[blocks[0]].Obj? && InPlace(obj[blocks[0]].fields, blocks[1..], updates)
  }

  /** An update changes nothing at all exactly when everything is in place. */
  lemma {:induction false} NestedUpdateIsIdleExactlyWhen(obj: Object, blocks: seq<string>, updates: seq<Update>)
    ensures UpdateNested(obj, blocks, updates) == obj <==> InPlace(obj, blocks, updates)
    decreases |blocks|
  {
    if blocks == [] {
      forall key {
        ApplyByKey(obj, updates, key);
      }
      if InPlace(obj, blocks, updates) {
        SameLookups(Apply(obj, updates), obj);
      }
    } else {
      var block := blocks[0];
      var child := Child(obj, block);
      NestedUpdateIsIdleExactlyWhen(child, blocks[1..], updates);
      var updated := UpdateNested(obj, blocks, updates);
      assert updated[block] == Obj(UpdateNested(child, blocks[1..], updates));
    }
  }

  // ---- The block update

  function DropIfEmpty(obj: Object, block: string): Object {
    if block in obj && obj[block] == Obj(map[]) then obj - {block} else obj
  }

  /** The block update is the nested update of that one block, followed by
      dropping the block when nothing is left in it. */
  lemma BlockUpdateIsNestedThenDrop(obj: Object, block: string, updates: seq<Update>)
    ensures UpdateBlock(obj, block, updates) == DropIfEmpty(UpdateNested(obj, [block], updates), block)
  {
    var nested := Apply(Child(obj, block), updates);
    assert [block][1..] == [];
    assert UpdateNested(obj, [block], updates) == obj[block := Obj(nested)];
    assert obj[block := Obj(nested)] - {block} == obj - {block};
  }
}

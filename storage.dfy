/** `list_worlds`: the world names among the bucket's blob names. */
module Storage {
  import opened Text

  /** The comprehension's filter: `"worlds" in blob.name and len(blob.name) > 7`. */
  predicate IsWorldBlob(name: string)
  {
    Contains(name, "worlds") && |name| > 7
  }

  /** `[blob.name[7:] for blob in blobs if ...]` over the names the bucket lists. */
  function ListWorlds(blobs: seq<string>): seq<string>
  {
    if blobs == [] then []
    else (if IsWorldBlob(blobs[0]) then [blobs[0][7..]] else []) + ListWorlds(blobs[1..])
  }

  /** The result follows the input order: listing a concatenation concatenates the listings. */
  lemma {:induction false} ListWorldsAppend(a: seq<string>, b: seq<string>)
    ensures ListWorlds(a + b) == ListWorlds(a) + ListWorlds(b)
    decreases |a|
  {
    if a != [] {
      assert (a + b)[0] == a[0];
      assert (a + b)[1..] == a[1..] + b;
      ListWorldsAppend(a[1..], b);
    } else {
      assert a + b == b;
    }
  }

  /** One blob yields its name minus the first seven characters, or nothing. */
  lemma ListWorldsSingle(name: string)
    ensures ListWorlds([name]) == if IsWorldBlob(name) then [name[7..]] else []
  {
    assert [name][1..] == [];
  }

  /** A name is listed exactly when it is some world blob's name with seven characters dropped. */
  lemma {:induction false} ListWorldsMembers(blobs: seq<string>, world: string)
    ensures world in ListWorlds(blobs) <==>
      exists k :: 0 <= k < |blobs| && IsWorldBlob(blobs[k]) && blobs[k][7..] == world
    decreases |blobs|
  {
    if blobs != [] {
      ListWorldsMembers(blobs[1..], world);
      assert forall k :: 1 <= k < |blobs| ==> blobs[1..][k - 1] == blobs[k];
      if exists k :: 0 <= k < |blobs| && IsWorldBlob(blobs[k]) && blobs[k][7..] == world {
        var k :| 0 <= k < |blobs| && IsWorldBlob(blobs[k]) && blobs[k][7..] == world;
        if k > 0 {
          assert blobs[1..][k - 1] == blobs[k];
        }
      }
    }
  }

  /** A blob in the `worlds/` folder is listed under its name within the folder. */
  lemma ListWorldsFolder(world: string)
    requires world != ""
    ensures ListWorlds(["worlds/" + world]) == [world]
  {
    var name := "worlds/" + world;
    assert "worlds" <= name;
    assert name[7..] == world;
    ListWorldsSingle(name);
  }

  /** Never longer than the input; as long exactly when every blob is a world blob. */
  lemma {:induction false} ListWorldsLength(blobs: seq<string>)
    ensures |ListWorlds(blobs)| <= |blobs|
    ensures |ListWorlds(blobs)| == |blobs| <==> forall k :: 0 <= k < |blobs| ==> IsWorldBlob(blobs[k])
    decreases |blobs|
  {
    if blobs != [] {
      ListWorldsLength(blobs[1..]);
      assert forall k :: 1 <= k < |blobs| ==> blobs[1..][k - 1] == blobs[k];
    }
  }
}

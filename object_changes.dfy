/**
 * The object-change resolver: collects the ids of the objects a transaction
 * created, from the `objectChanges` list of its execution response.
 */
module ObjectChanges {

  /**
   * One entry of a Sui execution response's `objectChanges` list. Each
   * variant is one value of the entry's `type` tag. The resolver reads the
   * tag and `objectId`; `objectType` is kept to show that no filter uses it,
   * and a few identifying fields are kept per kind. `version`, `digest`,
   * `sender`, `owner` and `previousVersion` are dropped.
   */
  datatype ObjectChange =
    | Published(packageId: string, modules: seq<string>)
    | Transferred(objectId: string, objectType: string, recipient: string)
    | Mutated(objectId: string, objectType: string)
    | Deleted(objectId: string, objectType: string)
    | Wrapped(objectId: string, objectType: string)
    | Created(objectId: string, objectType: string)
  {
    /** The entry's `type` tag as the client reports it. */
    function TypeTag(): (tag: string)
      ensures tag == "created" <==> Created?
    {
      match this
      case Published(_, _) => "published"
      case Transferred(_, _, _) => "transferred"
      case Mutated(_, _) => "mutated"
      case Deleted(_, _) => "deleted"
      case Wrapped(_, _) => "wrapped"
      case Created(_, _) => "created"
    }

    /** The same entry with its declared object type replaced by `t`. */
    function WithObjectType(t: string): ObjectChange {
      match this
      case Published(p, ms) => Published(p, ms)
      case Transferred(id, _, r) => Transferred(id, t, r)
      case Mutated(id, _) => Mutated(id, t)
      case Deleted(id, _) => Deleted(id, t)
      case Wrapped(id, _) => Wrapped(id, t)
      case Created(id, _) => Created(id, t)
    }
  }

  /** Specification of the resolver: the ids of the created entries, in input order. */
  function CreatedIds(changes: seq<ObjectChange>): (ids: seq<string>)
    ensures |ids| <= |changes|
  {
    if changes == [] then []
    else if changes[0].Created? then [changes[0].objectId] + CreatedIds(changes[1..])
    else CreatedIds(changes[1..])
  }

  /** The `type` tags of a change list, position by position. */
  function TypeTags(changes: seq<ObjectChange>): (tags: seq<string>)
    ensures |tags| == |changes|
  {
    seq(|changes|, i requires 0 <= i < |changes| => changes[i].TypeTag())
  }

  /** Every entry of `changes` with its declared object type replaced by `t`. */
  function Retyped(changes: seq<ObjectChange>, t: string): (r: seq<ObjectChange>)
    ensures |r| == |changes|
  {
    seq(|changes|, i requires 0 <= i < |changes| => changes[i].WithObjectType(t))
  }

  /**
   * parseCreatedObjectsIds: one pass over the change list, pushing the id of
   * every entry whose tag is "created" onto a fresh list. The input is a
   * value and is only read.
   */
  method ParseCreatedObjectsIds(objectChanges: seq<ObjectChange>) returns (objectIds: seq<string>)
    ensures objectIds == CreatedIds(objectChanges)
  {
    objectIds := [];
    for i := 0 to |objectChanges|
      invariant objectIds == CreatedIds(objectChanges[..i])
    {
      var change := objectChanges[i];
      if change.TypeTag() == "created" {
        objectIds := objectIds + [change.objectId];
      }
      assert objectChanges[..i + 1] == objectChanges[..i] + [change];
      CreatedIdsAppend(objectChanges[..i], [change]);
    }
    assert objectChanges[..|objectChanges|] == objectChanges;
  }

  /** Entries are visited once each, left to right: the result distributes over concatenation. */
  lemma {:induction false} CreatedIdsAppend(a: seq<ObjectChange>, b: seq<ObjectChange>)
    ensures CreatedIds(a + b) == CreatedIds(a) + CreatedIds(b)
  {
    if a == [] {
      assert a + b == b;
    } else {
      assert (a + b)[1..] == a[1..] + b;
      CreatedIdsAppend(a[1..], b);
    }
  }

  /** An id is returned exactly when some created entry carries it, whatever that entry's object type. */
  lemma {:induction false} CreatedIdsMembership(changes: seq<ObjectChange>, id: string)
    ensures id in CreatedIds(changes) <==>
      exists i :: 0 <= i < |changes| && changes[i].Created? && changes[i].objectId == id
  {
    if changes != [] {
      CreatedIdsMembership(changes[1..], id);
      if id in CreatedIds(changes[1..]) {
        var i :| 0 <= i < |changes[1..]| && changes[1..][i].Created? && changes[1..][i].objectId == id;
        assert changes[i + 1] == changes[1..][i];
      }
      if exists i :: 0 <= i < |changes| && changes[i].Created? && changes[i].objectId == id {
        var i :| 0 <= i < |changes| && changes[i].Created? && changes[i].objectId == id;
        if i > 0 {
          assert changes[1..][i - 1] == changes[i];
        }
      }
    }
  }

  /** The result is empty exactly when no entry is a created one; in particular an empty list gives an empty result. */
  lemma {:induction false} CreatedIdsEmptyIff(changes: seq<ObjectChange>)
    ensures CreatedIds(changes) == [] <==> forall i :: 0 <= i < |changes| ==> !changes[i].Created?
  {
    if changes != [] {
      CreatedIdsEmptyIff(changes[1..]);
      if forall i :: 0 <= i < |changes[1..]| ==> !changes[1..][i].Created? {
        if !changes[0].Created? {
          forall i | 0 <= i < |changes| ensures !changes[i].Created? {
            if i > 0 {
              assert changes[i] == changes[1..][i - 1];
            }
          }
        }
      } else {
        var j :| 0 <= j < |changes[1..]| && changes[1..][j].Created?;
        assert changes[j + 1].Created?;
      }
    }
  }

  /** The result has one id per entry tagged "created": its length is the number of such tags. */
  lemma {:induction false} CreatedIdsCount(changes: seq<ObjectChange>)
    ensures |CreatedIds(changes)| == multiset(TypeTags(changes))["created"]
  {
    if changes != [] {
      CreatedIdsCount(changes[1..]);
      assert TypeTags(changes) == [changes[0].TypeTag()] + TypeTags(changes[1..]);
    }
  }

  /** Every id is kept exactly when every entry is a created one. */
  lemma {:induction false} CreatedIdsFullIff(changes: seq<ObjectChange>)
    ensures |CreatedIds(changes)| == |changes| <==> forall i :: 0 <= i < |changes| ==> changes[i].Created?
  {
    if changes != [] {
      CreatedIdsFullIff(changes[1..]);
      if forall i :: 0 <= i < |changes| ==> changes[i].Created? {
        assert forall i :: 0 <= i < |changes[1..]| ==> changes[1..][i] == changes[i + 1];
      }
      if forall i :: 0 <= i < |changes[1..]| ==> changes[1..][i].Created? {
        forall i | 0 < i < |changes| ensures changes[i].Created? {
          assert changes[i] == changes[1..][i - 1];
        }
      }
    }
  }

  /** The declared object type plays no part: retyping every entry leaves the result unchanged. */
  lemma {:induction false} CreatedIdsIgnoreObjectType(changes: seq<ObjectChange>, t: string)
    ensures CreatedIds(Retyped(changes, t)) == CreatedIds(changes)
  {
    if changes != [] {
      CreatedIdsIgnoreObjectType(changes[1..], t);
      assert Retyped(changes, t)[1..] == Retyped(changes[1..], t);
    }
  }

  /** One created entry among any number of non-created ones yields exactly that entry's id. */
  lemma SingleCreatedEntry(before: seq<ObjectChange>, id: string, objectType: string, after: seq<ObjectChange>)
    requires forall i :: 0 <= i < |before| ==> !before[i].Created?
    requires forall i :: 0 <= i < |after| ==> !after[i].Created?
    ensures CreatedIds(before + [Created(id, objectType)] + after) == [id]
  {
    CreatedIdsEmptyIff(before);
    CreatedIdsEmptyIff(after);
    CreatedIdsAppend(before, [Created(id, objectType)]);
    CreatedIdsAppend(before + [Created(id, objectType)], after);
  }
}

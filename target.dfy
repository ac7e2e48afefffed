/**
 * The write-only target store and what the synchroniser's writes do to it.
 * The target is keyed by the business key. Whether the store accepts an
 * insert is a property of the record it is given (`accepts`); the store's
 * own reasons for refusing are not part of this model.
 */
module Target {
  import opened Records

  type Docs = map<Key, Record>

  /** Target contents after `rs` is inserted in order, each record kept only when the store accepts it. */
  function Store(docs: Docs, rs: seq<Record>, accepts: Record -> bool): Docs
  {
    if rs == [] then docs
    else
      var d := Store(docs, rs[..|rs| - 1], accepts);
      var r := rs[|rs| - 1];
      if accepts(r) then d[r.name := r] else d
  }

  /** How many of `rs` the store accepts: one event is sent per accepted insert. */
  function CountAccepted(rs: seq<Record>, accepts: Record -> bool): nat
  {
    if rs == [] then 0
    else CountAccepted(rs[..|rs| - 1], accepts) + (if accepts(rs[|rs| - 1]) then 1 else 0)
  }

  /** Inserting `a + b` is inserting `a` and then `b`. */
  lemma {:induction false} StoreConcat(docs: Docs, a: seq<Record>, b: seq<Record>, accepts: Record -> bool)
    ensures Store(docs, a + b, accepts) == Store(Store(docs, a, accepts), b, accepts)
  {
    if b != [] {
      assert (a + b)[..|a + b| - 1] == a + b[..|b| - 1];
      StoreConcat(docs, a, b[..|b| - 1], accepts);
    } else {
      assert a + b == a;
    }
  }

  /** The accepted inserts of `a + b` are those of `a` plus those of `b`. */
  lemma {:induction false} CountConcat(a: seq<Record>, b: seq<Record>, accepts: Record -> bool)
    ensures CountAccepted(a + b, accepts) == CountAccepted(a, accepts) + CountAccepted(b, accepts)
  {
    if b != [] {
      assert (a + b)[..|a + b| - 1] == a + b[..|b| - 1];
      CountConcat(a, b[..|b| - 1], accepts);
    } else {
      assert a + b == a;
    }
  }

  /** At most one event per record, and exactly one per record precisely when the store refuses none of them. */
  lemma {:induction false} CountAcceptedAll(rs: seq<Record>, accepts: Record -> bool)
    ensures CountAccepted(rs, accepts) <= |rs|
    ensures CountAccepted(rs, accepts) == |rs| <==> forall i :: 0 <= i < |rs| ==> accepts(rs[i])
  {
    if rs != [] {
      var init := rs[..|rs| - 1];
      CountAcceptedAll(init, accepts);
      if CountAccepted(rs, accepts) == |rs| {
        forall i | 0 <= i < |rs| ensures accepts(rs[i]) {
          if i < |rs| - 1 {
            assert rs[i] == init[i];
          }
        }
      }
      if forall i :: 0 <= i < |rs| ==> accepts(rs[i]) {
        forall i | 0 <= i < |init| ensures accepts(init[i]) {
          assert init[i] == rs[i];
        }
      }
    }
  }

  /**
   * The keys present after inserting `rs` are the old keys plus the name of
   * every accepted record; a key no accepted record carries keeps its old record.
   */
  lemma {:induction false} StoreKeys(docs: Docs, rs: seq<Record>, accepts: Record -> bool)
    ensures forall k :: k in Store(docs, rs, accepts) <==>
              k in docs || exists i :: 0 <= i < |rs| && accepts(rs[i]) && rs[i].name == k
    ensures forall k :: k in docs && (forall i :: 0 <= i < |rs| && accepts(rs[i]) ==> rs[i].name != k) ==>
              Store(docs, rs, accepts)[k] == docs[k]
  {
    if rs != [] {
      var init := rs[..|rs| - 1];
      StoreKeys(docs, init, accepts);
      forall k ensures k in Store(docs, rs, accepts) <==>
          k in docs || exists i :: 0 <= i < |rs| && accepts(rs[i]) && rs[i].name == k
      {
        if exists i :: 0 <= i < |init| && accepts(init[i]) && init[i].name == k {
          var i :| 0 <= i < |init| && accepts(init[i]) && init[i].name == k;
          assert rs[i] == init[i];
        }
        if exists i :: 0 <= i < |rs| && accepts(rs[i]) && rs[i].name == k {
          var i :| 0 <= i < |rs| && accepts(rs[i]) && rs[i].name == k;
          if i < |init| {
            assert init[i] == rs[i];
          }
        }
      }
      forall k | k in docs && (forall i :: 0 <= i < |rs| && accepts(rs[i]) ==> rs[i].name != k)
        ensures Store(docs, rs, accepts)[k] == docs[k]
      {
        forall i | 0 <= i < |init| && accepts(init[i]) ensures init[i].name != k {
          assert init[i] == rs[i];
        }
      }
    }
  }

  /**
   * When the names in `rs` are distinct, every accepted record ends up in the
   * target under its own name, exactly as it was in `rs`.
   */
  lemma {:induction false} StoreHoldsAccepted(docs: Docs, rs: seq<Record>, accepts: Record -> bool)
    requires forall i, j :: 0 <= i < j < |rs| ==> rs[i].name != rs[j].name
    ensures forall i :: 0 <= i < |rs| && accepts(rs[i]) ==>
              rs[i].name in Store(docs, rs, accepts) && Store(docs, rs, accepts)[rs[i].name] == rs[i]
  {
    if rs != [] {
      var init := rs[..|rs| - 1];
      StoreHoldsAccepted(docs, init, accepts);
      forall i | 0 <= i < |rs| && accepts(rs[i])
        ensures rs[i].name in Store(docs, rs, accepts) && Store(docs, rs, accepts)[rs[i].name] == rs[i]
      {
        if i < |init| {
          assert init[i] == rs[i];
        }
      }
    }
  }

  /**
   * Number of records the naive full copy inserts before the first refused
   * one: every record before it is accepted, the one at it (if any) is not.
   */
  function FirstRejected(rs: seq<Record>, accepts: Record -> bool): (k: nat)
    ensures k <= |rs|
    ensures forall i :: 0 <= i < k ==> accepts(rs[i])
    ensures k < |rs| ==> !accepts(rs[k])
  {
    if rs == [] || !accepts(rs[0]) then 0
    else 1 + FirstRejected(rs[1..], accepts)
  }

  /**
   * Target contents after `update({ name }, patch)` with the patch read from
   * the source by `find({ name })`: the entry for `name` is overwritten when
   * both the target and the source have one; otherwise nothing changes.
   */
  function Refresh(docs: Docs, source: seq<Record>, name: Key): Docs
  {
    match FindByName(source, name)
    case None => docs
    case Some(r) => if name in docs then docs[name := r] else docs
  }

  /** Target contents after one update per entry of the change list, in list order. */
  function ApplyChanges(docs: Docs, source: seq<Record>, names: seq<Key>): Docs
  {
    if names == [] then docs
    else Refresh(ApplyChanges(docs, source, names[..|names| - 1]), source, names[|names| - 1])
  }

  /**
   * The delta sync adds no key, refreshes from the source every listed key
   * that both stores hold, and leaves every other entry as it was.
   */
  lemma {:induction false} ApplyChangesAt(docs: Docs, source: seq<Record>, names: seq<Key>)
    ensures ApplyChanges(docs, source, names).Keys == docs.Keys
    ensures forall k :: k in docs ==>
              ApplyChanges(docs, source, names)[k] ==
                if k in names && FindByName(source, k).Some? then FindByName(source, k).value else docs[k]
  {
    if names != [] {
      var init := names[..|names| - 1];
      ApplyChangesAt(docs, source, init);
      assert forall k :: k in names <==> k in init || k == names[|names| - 1];
    }
  }

  /**
   * Duplicates in the change list change nothing: two lists naming the same
   * keys, in any order and with any repetition, produce the same target.
   */
  lemma ApplyChangesIgnoresDuplicates(docs: Docs, source: seq<Record>, names: seq<Key>, others: seq<Key>)
    requires forall k :: k in names <==> k in others
    ensures ApplyChanges(docs, source, names) == ApplyChanges(docs, source, others)
  {
    ApplyChangesAt(docs, source, names);
    ApplyChangesAt(docs, source, others);
  }

  /** Running the same delta a second time leaves the target as the first run left it. */
  lemma ApplyChangesIdempotent(docs: Docs, source: seq<Record>, names: seq<Key>)
    ensures ApplyChanges(ApplyChanges(docs, source, names), source, names) == ApplyChanges(docs, source, names)
  {
    var once := ApplyChanges(docs, source, names);
    ApplyChangesAt(docs, source, names);
    ApplyChangesAt(once, source, names);
  }

  /** The target store: its documents, and which inserts it accepts. */
  class TargetStore {
    var docs: Docs
    const accepts: Record -> bool

    constructor (accepts: Record -> bool)
      ensures docs == map[] && this.accepts == accepts
    {
      docs := map[];
      this.accepts := accepts;
    }

    /** `targetDb.insert(r)`: either stores `r` under its name, or fails and changes nothing. */
    method Insert(r: Record) returns (ok: bool)
      modifies this
      ensures ok == accepts(r)
      ensures docs == if ok then old(docs)[r.name := r] else old(docs)
    {
      ok := accepts(r);
      if ok {
        docs := docs[r.name := r];
      }
    }

    /** `targetDb.update({ name }, { $set: patch })`: overwrites an existing entry, never creates one. */
    method Update(name: Key, patch: Option<Record>)
      requires patch.Some? ==> patch.value.name == name
      modifies this
      ensures docs == if patch.Some? && name in old(docs) then old(docs)[name := patch.value] else old(docs)
    {
      if patch.Some? && name in docs {
        docs := docs[name := patch.value];
      }
    }
  }
}

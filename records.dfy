/**
 * Records of the source store and the two lookups the synchroniser makes by
 * business key: `find({ name })` and the mock mutator `touch(name)`.
 * The source is a sequence in the order the store returns it to `find({})`;
 * "the record named k" is the first one in that order.
 */
module Records {

  /** The business key: the `name` field of a record. */
  type Key = string

  datatype Option<T> = None | Some(value: T)

  /** A source document. Only `name` identifies it; `owner` is what `touch` rewrites. */
  datatype Record = Record(name: Key, owner: string, amount: string)

  /** The owner that `touch` writes into the record it updates. */
  const TOUCHED_OWNER: string := "test4"

  /** Position of the first record named `name`, or None when no record has that name. */
  function IndexOfName(source: seq<Record>, name: Key): (r: Option<nat>)
    ensures r.Some? ==> r.value < |source| && source[r.value].name == name
    ensures r.Some? ==> forall j :: 0 <= j < r.value ==> source[j].name != name
    ensures r.None? <==> forall j :: 0 <= j < |source| ==> source[j].name != name
  {
    if |source| == 0 then None
    else if source[0].name == name then Some(0)
    else match IndexOfName(source[1..], name)
      case None => None
      case Some(i) => Some(i + 1)
  }

  /** The record `find({ name })` yields first, if any. */
  function FindByName(source: seq<Record>, name: Key): (r: Option<Record>)
    ensures r.Some? ==> r.value in source && r.value.name == name
    ensures r.None? <==> forall j :: 0 <= j < |source| ==> source[j].name != name
  {
    match IndexOfName(source, name)
    case None => None
    case Some(i) => Some(source[i])
  }

  /** Two sources whose names agree position by position select the same position for every key. */
  lemma SameNamesSameIndex(a: seq<Record>, b: seq<Record>, name: Key)
    requires |a| == |b|
    requires forall j :: 0 <= j < |a| ==> a[j].name == b[j].name
    ensures IndexOfName(a, name) == IndexOfName(b, name)
  {
  }

  /**
   * Source contents after `touch(name)`: the record the update selects gets
   * owner "test4"; no other record changes and no name changes.
   */
  function TouchSource(source: seq<Record>, name: Key): (s: seq<Record>)
    ensures |s| == |source|
    ensures forall j :: 0 <= j < |s| ==> s[j].name == source[j].name
    ensures forall j :: 0 <= j < |s| && s[j] != source[j] ==> IndexOfName(source, name) == Some(j)
    ensures FindByName(s, name) ==
              match FindByName(source, name)
              case None => None
              case Some(r) => Some(r.(owner := TOUCHED_OWNER))
    ensures forall k :: k != name ==> FindByName(s, k) == FindByName(source, k)
  {
    match IndexOfName(source, name)
    case None => source
    case Some(i) =>
      var s := source[i := source[i].(owner := TOUCHED_OWNER)];
      SameNamesSameIndex(source, s, name);
      forall k | k != name ensures FindByName(s, k) == FindByName(source, k) {
        SameNamesSameIndex(source, s, k);
      }
      s
  }
}

/**
 * Index descriptors as the collection lists them, the rule that recognises an
 * existing time-to-live index on `CreatedAt`, and the "create it if absent"
 * update of the index list.
 */
module TtlIndex {
  import opened Wrappers

  const CreatedAtField: string := "CreatedAt"
  const TtlIndexName: string := "TTL_CreatedAt"

  /** The value of one key element: 1, -1, or a special kind such as "hashed" or "text". */
  datatype KeyOrder = Ascending | Descending | Special(kind: string)

  datatype KeyField = KeyField(field: string, order: KeyOrder)

  /**
   * One entry of the index listing: its key document, its name if it has one
   * and its `expireAfterSeconds` option if it has one. Any other option of the
   * entry plays no part in the rule and is not kept.
   */
  datatype IndexDescriptor = IndexDescriptor(
    key: seq<KeyField>,
    name: Option<string>,
    expireAfterSeconds: Option<int>)

  /** The element names of a key document, in order. */
  function FieldNames(key: seq<KeyField>): (names: seq<string>)
    ensures |names| == |key|
    ensures forall i :: 0 <= i < |key| ==> names[i] == key[i].field
  {
    if key == [] then [] else [key[0].field] + FieldNames(key[1..])
  }

  function Abs(x: int): nat {
    if x < 0 then -x else x
  }

  /**
   * The source's test of one listed index: a one-element key on `CreatedAt`,
   * the name `TTL_CreatedAt`, and an `expireAfterSeconds` less than one second
   * away from the wanted duration.
   */
  predicate Matches(d: IndexDescriptor, expireSeconds: int) {
    |d.key| == 1 &&
    CreatedAtField in FieldNames(d.key) &&
    d.name == Some(TtlIndexName) &&
    d.expireAfterSeconds.Some? &&
    Abs(d.expireAfterSeconds.value - expireSeconds) < 1
  }

  /** `Any` over the listing: some index matches the wanted duration. */
  function TtlIndexExists(indexes: seq<IndexDescriptor>, expireSeconds: int): bool {
    if indexes == [] then false
    else Matches(indexes[0], expireSeconds) || TtlIndexExists(indexes[1..], expireSeconds)
  }

  /** The index the source creates: ascending on `CreatedAt`, named `TTL_CreatedAt`. */
  function TtlDescriptor(expireSeconds: int): IndexDescriptor {
    IndexDescriptor([KeyField(CreatedAtField, Ascending)], Some(TtlIndexName), Some(expireSeconds))
  }

  /** The index listing after the ensure-index step: one descriptor appended only when none matches. */
  function EnsureTtlIndex(indexes: seq<IndexDescriptor>, expireSeconds: int): seq<IndexDescriptor> {
    if TtlIndexExists(indexes, expireSeconds) then indexes
    else indexes + [TtlDescriptor(expireSeconds)]
  }

  /**
   * A descriptor matches exactly when its key is the single field `CreatedAt`
   * (in any order), its name is `TTL_CreatedAt` and its `expireAfterSeconds`
   * is present and equal to the wanted duration: over whole seconds the
   * one-second tolerance admits only equality.
   */
  lemma MatchesExactly(d: IndexDescriptor, expireSeconds: int)
    ensures Matches(d, expireSeconds) <==>
              |d.key| == 1 && d.key[0].field == CreatedAtField &&
              d.name == Some(TtlIndexName) &&
              d.expireAfterSeconds == Some(expireSeconds)
  {
    if |d.key| == 1 {
      assert FieldNames(d.key) == [d.key[0].field];
    }
  }

  /** The key's order does not take part in the rule: a descending `CreatedAt` key matches too. */
  lemma MatchesIgnoresOrder(o1: KeyOrder, o2: KeyOrder, name: Option<string>, expire: Option<int>, expireSeconds: int)
    ensures Matches(IndexDescriptor([KeyField(CreatedAtField, o1)], name, expire), expireSeconds) ==
            Matches(IndexDescriptor([KeyField(CreatedAtField, o2)], name, expire), expireSeconds)
  {
    MatchesExactly(IndexDescriptor([KeyField(CreatedAtField, o1)], name, expire), expireSeconds);
    MatchesExactly(IndexDescriptor([KeyField(CreatedAtField, o2)], name, expire), expireSeconds);
  }

  /** A compound key that merely contains `CreatedAt` does not match. */
  lemma CompoundKeyDoesNotMatch(d: IndexDescriptor, expireSeconds: int)
    requires |d.key| != 1
    ensures !Matches(d, expireSeconds)
  {
  }

  /** The created descriptor matches a duration exactly when it was created for that duration. */
  lemma TtlDescriptorMatches(created: int, expireSeconds: int)
    ensures Matches(TtlDescriptor(created), expireSeconds) <==> created == expireSeconds
  {
    MatchesExactly(TtlDescriptor(created), expireSeconds);
  }

  /** `TtlIndexExists` is "some listed index matches". */
  lemma {:induction false} TtlIndexExistsIff(indexes: seq<IndexDescriptor>, expireSeconds: int)
    ensures TtlIndexExists(indexes, expireSeconds) <==>
              exists i :: 0 <= i < |indexes| && Matches(indexes[i], expireSeconds)
  {
    if indexes != [] {
      TtlIndexExistsIff(indexes[1..], expireSeconds);
      if TtlIndexExists(indexes, expireSeconds) && !Matches(indexes[0], expireSeconds) {
        var j :| 0 <= j < |indexes[1..]| && Matches(indexes[1..][j], expireSeconds);
        assert Matches(indexes[j + 1], expireSeconds);
      }
      if exists i :: 0 <= i < |indexes| && Matches(indexes[i], expireSeconds) {
        var i :| 0 <= i < |indexes| && Matches(indexes[i], expireSeconds);
        if i > 0 {
          assert Matches(indexes[1..][i - 1], expireSeconds);
        }
      }
    }
  }

  /** Appending a descriptor keeps every earlier match and adds its own. */
  lemma {:induction false} TtlIndexExistsAppend(indexes: seq<IndexDescriptor>, d: IndexDescriptor, expireSeconds: int)
    ensures TtlIndexExists(indexes + [d], expireSeconds) <==>
              TtlIndexExists(indexes, expireSeconds) || Matches(d, expireSeconds)
  {
    if indexes != [] {
      assert (indexes + [d])[1..] == indexes[1..] + [d];
      TtlIndexExistsAppend(indexes[1..], d, expireSeconds);
    } else {
      assert ([] + [d])[1..] == [];
    }
  }

  /**
   * The ensure-index step leaves the listing unchanged exactly when an index
   * already matches, otherwise appends exactly the `TTL_CreatedAt` descriptor
   * and changes nothing else; afterwards a matching index is always listed.
   */
  lemma EnsureTtlIndexSpec(indexes: seq<IndexDescriptor>, expireSeconds: int)
    ensures TtlIndexExists(EnsureTtlIndex(indexes, expireSeconds), expireSeconds)
    ensures EnsureTtlIndex(indexes, expireSeconds) == indexes <==> TtlIndexExists(indexes, expireSeconds)
    ensures !TtlIndexExists(indexes, expireSeconds) ==>
              EnsureTtlIndex(indexes, expireSeconds) == indexes + [TtlDescriptor(expireSeconds)]
  {
    TtlIndexExistsAppend(indexes, TtlDescriptor(expireSeconds), expireSeconds);
    TtlDescriptorMatches(expireSeconds, expireSeconds);
    if !TtlIndexExists(indexes, expireSeconds) {
      assert |indexes + [TtlDescriptor(expireSeconds)]| != |indexes|;
    }
  }

  /** Idempotence: a second ensure-index step for the same duration adds nothing. */
  lemma EnsureTtlIndexIdempotent(indexes: seq<IndexDescriptor>, expireSeconds: int)
    ensures EnsureTtlIndex(EnsureTtlIndex(indexes, expireSeconds), expireSeconds) ==
            EnsureTtlIndex(indexes, expireSeconds)
  {
    EnsureTtlIndexSpec(indexes, expireSeconds);
  }

  /**
   * Repeated steps for one duration create at most one descriptor, and the
   * indexes listed before are kept as a prefix.
   */
  lemma EnsureTtlIndexGrowsByAtMostOne(indexes: seq<IndexDescriptor>, expireSeconds: int)
    ensures indexes <= EnsureTtlIndex(indexes, expireSeconds)
    ensures |EnsureTtlIndex(EnsureTtlIndex(indexes, expireSeconds), expireSeconds)| <= |indexes| + 1
  {
    EnsureTtlIndexIdempotent(indexes, expireSeconds);
  }

  /**
   * An index created for another duration is no match: a step for a new
   * duration issues the creation of a second `TTL_CreatedAt` descriptor. The
   * model records that request as an append; whether the server accepts an
   * index of the same name with other options is not modelled.
   */
  lemma EnsureTtlIndexOtherDuration(indexes: seq<IndexDescriptor>, first: int, second: int)
    requires first != second
    requires !TtlIndexExists(indexes, second)
    ensures EnsureTtlIndex(EnsureTtlIndex(indexes, first), second) ==
              EnsureTtlIndex(indexes, first) + [TtlDescriptor(second)]
  {
    TtlIndexExistsAppend(indexes, TtlDescriptor(first), second);
    TtlDescriptorMatches(first, second);
  }
}

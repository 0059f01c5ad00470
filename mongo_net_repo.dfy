/**
 * The repository class: its database handle and bound collection, the guards
 * of SetCollection and Create, and the time-to-live setup of AutoDelete.
 * The document store is represented only by what this code looks at and
 * changes: each collection's list of index descriptors.
 */
module MongoNetRepo {
  import opened Wrappers
  import opened Exceptions
  import opened ExpireTime
  import opened TtlIndex

  /** A collection of the store; `indexes` is what listing its indexes returns. */
  class Collection {
    var indexes: seq<IndexDescriptor>

    constructor ()
      ensures indexes == []
    {
      indexes := [];
    }

    /** CreateOneAsync: the new index is added to the listing. */
    method CreateIndex(d: IndexDescriptor)
      modifies this
      ensures indexes == old(indexes) + [d]
    {
      indexes := indexes + [d];
    }
  }

  /** A database of the store: one shared collection per name. */
  class Database {
    var collections: map<string, Collection>

    constructor ()
      ensures collections == map[]
    {
      collections := map[];
    }

    /** GetCollection: the handle for `name`, the same one each time it is asked for. */
    method GetCollection(name: string) returns (c: Collection)
      modifies this
      ensures name in old(collections) ==> c == old(collections)[name] && collections == old(collections)
      ensures name !in old(collections) ==> fresh(c) && c.indexes == [] && collections == old(collections)[name := c]
    {
      if name in collections {
        c := collections[name];
      } else {
        c := new Collection();
        collections := collections[name := c];
      }
    }
  }

  /** An entity; `createdAt` is its creation time. */
  class Document {
    var createdAt: int

    constructor (createdAt: int)
      ensures this.createdAt == createdAt
    {
      this.createdAt := createdAt;
    }
  }

  class Repo {
    /** Whether the entity type has a `CreatedAt` property of type DateTime, as reflection finds it. */
    const entityHasCreatedAt: bool
    var dataBase: Database?
    var dbCollection: Collection?

    /** The repository with a database handle and no collection bound yet. */
    constructor (dataBase: Database?, entityHasCreatedAt: bool)
      ensures this.dataBase == dataBase && dbCollection == null
      ensures this.entityHasCreatedAt == entityHasCreatedAt
    {
      this.dataBase := dataBase;
      this.entityHasCreatedAt := entityHasCreatedAt;
      dbCollection := null;
    }

    /**
     * Binds the collection named `collectionName`; without a database handle it
     * throws ArgumentNull and binds nothing.
     */
    method SetCollection(collectionName: string) returns (r: Outcome<Exception>)
      modifies this, dataBase
      ensures dataBase == old(dataBase)
      ensures r == Fail(ArgumentNull) <==> old(dataBase) == null
      ensures r == Pass <==> old(dataBase) != null
      ensures r.Fail? ==> dbCollection == old(dbCollection)
      ensures r.Pass? ==> dataBase != null && dbCollection != null &&
                          collectionName in dataBase.collections &&
                          dbCollection == dataBase.collections[collectionName]
      ensures r.Pass? && collectionName in old(dataBase.collections) ==>
                dbCollection == old(dataBase.collections[collectionName]) &&
                dataBase.collections == old(dataBase.collections)
      ensures r.Pass? && collectionName !in old(dataBase.collections) ==>
                fresh(dbCollection) && dbCollection.indexes == [] &&
                dataBase.collections == old(dataBase.collections)[collectionName := dbCollection]
    {
      if dataBase == null {
        return Fail(ArgumentNull);
      }
      var c := dataBase.GetCollection(collectionName);
      dbCollection := c;
      r := Pass;
    }

    /**
     * The checks of Create before the insert: a null document throws
     * ArgumentNull, an unbound collection NullReference.
     */
    method Create(document: Document?) returns (r: Outcome<Exception>)
      ensures r == Fail(ArgumentNull) <==> document == null
      ensures r == Fail(NullReference) <==> document != null && dbCollection == null
      ensures r == Pass <==> document != null && dbCollection != null
    {
      if document == null {
        return Fail(ArgumentNull);
      }
      if dbCollection == null {
        return Fail(NullReference);
      }
      r := Pass;
    }

    /**
     * Stamps the entity's creation time with `now`, then makes sure the bound
     * collection has a `TTL_CreatedAt` index for the given duration, creating
     * one only when no listed index matches. Returns true whenever it does not
     * throw. The stamp is kept even when a later step throws.
     */
    method AutoDelete(entity: Document?, value: int32, timeUnit: TimeUnit, now: int)
      returns (r: Result<bool, Exception>)
      modifies entity, dbCollection
      ensures !entityHasCreatedAt ==> r == Failure(MissingCreatedAt)
      ensures entityHasCreatedAt && entity == null ==> r == Failure(TargetNull)
      ensures entity != null ==>
                entity.createdAt == if entityHasCreatedAt then now else old(entity.createdAt)
      ensures entityHasCreatedAt && entity != null && GetExpireTime(value, timeUnit).Failure? ==>
                r == Failure(GetExpireTime(value, timeUnit).error)
      ensures entityHasCreatedAt && entity != null && GetExpireTime(value, timeUnit).Success? ==>
                r == if dbCollection == null then Failure(NullReference) else Success(true)
      ensures r.Success? ==> r.value && dbCollection != null && GetExpireTime(value, timeUnit).Success?
      ensures r.Success? ==>
                dbCollection.indexes == EnsureTtlIndex(old(dbCollection.indexes), GetExpireTime(value, timeUnit).value)
      ensures r.Success? ==> TtlIndexExists(dbCollection.indexes, GetExpireTime(value, timeUnit).value)
      ensures r.Failure? && dbCollection != null ==> dbCollection.indexes == old(dbCollection.indexes)
    {
      if !entityHasCreatedAt {
        return Failure(MissingCreatedAt);
      }
      if entity == null {
        return Failure(TargetNull);
      }
      entity.createdAt := now;

      var expireTime := GetExpireTime(value, timeUnit);
      if expireTime.Failure? {
        return Failure(expireTime.error);
      }
      var expireSeconds := expireTime.value;

      if dbCollection == null {
        return Failure(NullReference);
      }
      var indexList := dbCollection.indexes;
      var ttlIndexExists := TtlIndexExists(indexList, expireSeconds);
      if !ttlIndexExists {
        dbCollection.CreateIndex(TtlDescriptor(expireSeconds));
      }
      EnsureTtlIndexSpec(indexList, expireSeconds);
      r := Success(true);
    }
  }

  /**
   * Two AutoDelete calls with the same amount and unit: the second creates no
   * index, so together they create at most one.
   */
  method AutoDeleteTwice(repo: Repo, e1: Document?, e2: Document?, value: int32, timeUnit: TimeUnit, now1: int, now2: int)
    returns (r1: Result<bool, Exception>, r2: Result<bool, Exception>)
    requires repo.dbCollection != null
    modifies e1, e2, repo.dbCollection
    ensures r1.Success? && r2.Success? ==>
              GetExpireTime(value, timeUnit).Success? &&
              repo.dbCollection.indexes == EnsureTtlIndex(old(repo.dbCollection.indexes), GetExpireTime(value, timeUnit).value)
    ensures r1.Success? && r2.Success? ==>
              old(repo.dbCollection.indexes) <= repo.dbCollection.indexes &&
              |repo.dbCollection.indexes| <= |old(repo.dbCollection.indexes)| + 1
    ensures r1.Success? ==> r2.Success? == (e2 != null)
  {
    ghost var before := repo.dbCollection.indexes;
    r1 := repo.AutoDelete(e1, value, timeUnit, now1);
    r2 := repo.AutoDelete(e2, value, timeUnit, now2);
    if r1.Success? && r2.Success? {
      EnsureTtlIndexIdempotent(before, GetExpireTime(value, timeUnit).value);
      EnsureTtlIndexGrowsByAtMostOne(before, GetExpireTime(value, timeUnit).value);
    }
  }

  /**
   * The ensure-index step composed with the conversion as written: for
   * 613,566,757 weeks, where no 3-day index is listed, the source creates a
   * `TTL_CreatedAt` index of 259,200 seconds, while the intended conversion
   * throws Overflow before any index is touched.
   */
  lemma AutoDeleteAsWrittenWeekWrap(indexes: seq<IndexDescriptor>)
    requires !TtlIndexExists(indexes, 259_200)
    ensures GetExpireTimeAsWritten(613_566_757, Week).Success?
    ensures EnsureTtlIndex(indexes, GetExpireTimeAsWritten(613_566_757, Week).value) ==
              indexes + [TtlDescriptor(259_200)]
    ensures GetExpireTime(613_566_757, Week) == Failure(Overflow)
  {
    WeekProductWraps();
    EnsureTtlIndexSpec(indexes, 259_200);
  }
}

# MongoNet time-to-live setup, in Dafny

MongoNet is a generic repository wrapper around the MongoDB C# driver. Most of its
operations hand their work straight to the driver. The logic the library computes
itself sits in `MongoNetRepo<TEntity>`, in the time-to-live (auto-expiry) setup and in two guards:

- `GetExpireTime` turns a 32-bit amount and a `TimeUnit` into a duration. A month is
  30 days and a year is 365 days. An undefined unit throws `ArgumentOutOfRangeException`.
- `AutoDelete` stamps the entity's `CreatedAt` with the current time. It then lists the
  bound collection's indexes. It creates the `TTL_CreatedAt` index on `CreatedAt` only when
  no listed index already matches: a one-field key on `CreatedAt`, the name `TTL_CreatedAt`,
  and an `expireAfterSeconds` less than one second away from the wanted duration. It returns `true`.
- `SetCollection` throws `ArgumentNullException` when there is no database handle and
  otherwise binds the named collection. `Create` throws `ArgumentNullException` on a null document.

Files:

- `wrappers.dfy`: `Option`, `Result` and `Outcome`.
- `exceptions.dfy`: the exceptions the code throws or runs into.
- `expire_time.dfy`: durations in whole seconds, TimeSpan's tick range, and C#'s 32-bit wrap-around.
- `ttl_index.dfy`: index descriptors, the matching rule and the "create if absent" update of the index list, as functions and lemmas.
- `mongo_net_repo.dfy`: the repository as a class. It has a collection class whose index list is a `seq` that `CreateIndex` appends to, and a database class holding one shared collection per name.

The current time is a parameter of `AutoDelete`. The reflection lookup of `CreatedAt`
is a constant of the repository (`entityHasCreatedAt`), because it depends only on the entity type.

Using an unbound collection throws `NullReferenceException`. `AutoDelete` does not check
that the amount is positive. A missing database handle throws `ArgumentNullException`.

## Model

| member | source | states |
|---|---|---|
| `ExpireTime.GetExpireTime` | MongoNet/MongoNet/Implementation/MongoNetRepo.cs:223-235 | An undefined unit, and only that, gives ArgumentOutOfRange. A named unit succeeds exactly when `value` times the unit's length in seconds fits a TimeSpan, and the result is that product. Otherwise it gives Overflow. |
| `ExpireTime.UnitTableExamples` | MongoNet/MongoNet/Implementation/MongoNetRepo.cs:225-232 | 30 days is 2,592,000 seconds. A month equals 30 days, a week 7 days, a year 365 days, a day 1440 minutes and a minute 60 seconds. |
| `ExpireTime.SecondsAndMinutesFit` | MongoNet/MongoNet/Implementation/MongoNetRepo.cs:227-228 | No 32-bit amount of seconds or minutes overflows. The duration is exactly `value` or `60·value` seconds. |
| `ExpireTime.DayRange` | MongoNet/MongoNet/Implementation/MongoNetRepo.cs:229 | A day amount gives a duration exactly when it lies within ±10,675,199 days. |
| `ExpireTime.GetExpireTimeAsWritten` | MongoNet/MongoNet/Implementation/MongoNetRepo.cs:223-235 | The conversion as written, with the week, month and year day counts computed modulo 2^32. Only an undefined unit gives ArgumentOutOfRange. |
| `ExpireTime.Wrap32` | MongoNet/MongoNet/Implementation/MongoNetRepo.cs:230-232 | C#'s unchecked `int` product: the result differs from the exact product by a multiple of 2^32, and it equals the exact product when that fits in 32 bits. |
| `ExpireTime.AsWrittenAgreesWhenNoWrap` | MongoNet/MongoNet/Implementation/MongoNetRepo.cs:230-232 | When the 32-bit day count does not wrap, the as-written conversion equals the intended one. |
| `ExpireTime.WrapOnlyWhereIntendedOverflows` | MongoNet/MongoNet/Implementation/MongoNetRepo.cs:230-232 | Whenever the day count wraps, the intended conversion gives Overflow. |
| `ExpireTime.WeekProductWraps` | MongoNet/MongoNet/Implementation/MongoNetRepo.cs:230 | For 613,566,757 weeks, the as-written conversion gives 259,200 seconds (3 days), while the intended one gives Overflow. |
| `TtlIndex.FieldNames` | MongoNet/MongoNet/Implementation/MongoNetRepo.cs:201 | The key's element names, one per key field and in the same order. |
| `TtlIndex.Matches` | MongoNet/MongoNet/Implementation/MongoNetRepo.cs:194-205 | The `Any` lambda: a one-field key named `CreatedAt`, the name `TTL_CreatedAt`, and `expireAfterSeconds` present and less than one second from the wanted duration. It has no contract of its own; `MatchesExactly`, `MatchesIgnoresOrder` and `CompoundKeyDoesNotMatch` describe it. |
| `TtlIndex.TtlIndexExists` | MongoNet/MongoNet/Implementation/MongoNetRepo.cs:193 | `indexList.Any(...)`, written as a recursion over the listing. It has no contract of its own; `TtlIndexExistsIff` proves it means "some listed descriptor matches", and `TtlIndexExistsAppend` describes it after an append. |
| `TtlIndex.TtlDescriptor` | MongoNet/MongoNet/Implementation/MongoNetRepo.cs:209-214 | The index model the code builds: an ascending key on `CreatedAt`, the name `TTL_CreatedAt`, and the wanted duration. It has no contract of its own; `TtlDescriptorMatches` proves it matches exactly its own duration. |
| `TtlIndex.EnsureTtlIndex` | MongoNet/MongoNet/Implementation/MongoNetRepo.cs:207-217 | The create-if-absent branch applied to the listing. It has no contract of its own; `EnsureTtlIndexSpec`, `EnsureTtlIndexIdempotent`, `EnsureTtlIndexGrowsByAtMostOne` and `EnsureTtlIndexOtherDuration` describe it. |
| `TtlIndex.MatchesExactly` | MongoNet/MongoNet/Implementation/MongoNetRepo.cs:195-204 | A descriptor matches if and only if its key has exactly one field, that field is `CreatedAt`, its name is `TTL_CreatedAt`, and its `expireAfterSeconds` is present and equal to the wanted duration. For whole seconds the one-second tolerance allows only equality. |
| `TtlIndex.MatchesIgnoresOrder` | MongoNet/MongoNet/Implementation/MongoNetRepo.cs:199-201 | The key's order (ascending, descending or special) does not change whether a single-field `CreatedAt` descriptor matches. |
| `TtlIndex.CompoundKeyDoesNotMatch` | MongoNet/MongoNet/Implementation/MongoNetRepo.cs:200 | A key with no fields or with more than one field never matches. |
| `TtlIndex.TtlDescriptorMatches` | MongoNet/MongoNet/Implementation/MongoNetRepo.cs:209-214 | The created descriptor matches a duration if and only if it was created for that duration. |
| `TtlIndex.TtlIndexExistsIff` | MongoNet/MongoNet/Implementation/MongoNetRepo.cs:193-205 | The `Any` over the listing is true if and only if some listed descriptor matches. |
| `TtlIndex.TtlIndexExistsAppend` | MongoNet/MongoNet/Implementation/MongoNetRepo.cs:193-216 | After appending a descriptor, a match exists if and only if one existed before or the new descriptor matches. |
| `TtlIndex.EnsureTtlIndexSpec` | MongoNet/MongoNet/Implementation/MongoNetRepo.cs:207-217 | After the step a matching index is listed. The list is unchanged if and only if a match already existed. Otherwise exactly the `TTL_CreatedAt` descriptor with the wanted duration is appended. |
| `TtlIndex.EnsureTtlIndexIdempotent` | MongoNet/MongoNet/Implementation/MongoNetRepo.cs:191-217 | A second step with the same duration leaves the list as the first step left it. |
| `TtlIndex.EnsureTtlIndexGrowsByAtMostOne` | MongoNet/MongoNet/Implementation/MongoNetRepo.cs:191-217 | The earlier listing stays a prefix. Two steps with the same duration add at most one descriptor. |
| `TtlIndex.EnsureTtlIndexOtherDuration` | MongoNet/MongoNet/Implementation/MongoNetRepo.cs:193-217 | An index created for one duration does not match another duration, so a step for a new duration issues the creation of a second `TTL_CreatedAt` descriptor, recorded as an append. Whether the server accepts it is not modelled (see "## Left out"). |
| `MongoNetRepo.Collection.CreateIndex` | MongoNet/MongoNet/Implementation/MongoNetRepo.cs:216 | Creating an index appends exactly that descriptor to the collection's listing. |
| `MongoNetRepo.Database.GetCollection` | MongoNet/MongoNet/Implementation/MongoNetRepo.cs:34 | The same name always gives the same collection. A new name gives a fresh collection with no indexes. |
| `MongoNetRepo.Repo.constructor` | MongoNet/MongoNet/Implementation/MongoNetRepo.cs:18-22 | The repository holds the given database handle, and no collection is bound yet. |
| `MongoNetRepo.Repo.SetCollection` | MongoNet/MongoNet/Implementation/MongoNetRepo.cs:28-35 | It throws ArgumentNull if and only if there is no database handle, and then binds nothing. It passes if and only if there is a database handle, and then it binds the database's collection of that name, fresh and empty if the name was new. The driver's check of the name is not modelled (see "## Left out"). |
| `MongoNetRepo.Repo.Create` | MongoNet/MongoNet/Implementation/MongoNetRepo.cs:42-49 | A null document throws ArgumentNull. A non-null document with no bound collection throws NullReference. It passes if and only if the document is non-null and a collection is bound. |
| `MongoNetRepo.Repo.AutoDelete` | MongoNet/MongoNet/Implementation/MongoNetRepo.cs:178-220 | The exceptions come in the source's order: missing `CreatedAt`, null entity, the duration's exception, no bound collection. The entity is stamped with `now` before any later exception. On success it returns true, the index list equals `EnsureTtlIndex` of the old list, and a matching index is listed. On any exception the index list is unchanged. |
| `MongoNetRepo.AutoDeleteAsWrittenWeekWrap` | MongoNet/MongoNet/Implementation/MongoNetRepo.cs:187-217 | With the conversion as written, 613,566,757 weeks makes the ensure-index step append a 259,200-second `TTL_CreatedAt` descriptor to a listing that has no 3-day index. The intended conversion throws Overflow instead. |
| `MongoNetRepo.AutoDeleteTwice` | MongoNet/MongoNet/Implementation/MongoNetRepo.cs:191-217 | When both calls succeed, the listing after two calls with the same amount and unit equals `EnsureTtlIndex` of the listing before, so the second call adds nothing. The old listing stays a prefix and at most one descriptor is added. |

## Findings

| source | as written | input that shows it | evidently intended | confidence | as-written member | corrected member |
|---|---|---|---|---|---|---|
| MongoNet/MongoNet/Implementation/MongoNetRepo.cs:230-232 | The day count `value * 7`, `value * 30` or `value * 365` is an unchecked 32-bit `int` product. | `value = 613566757`, `TimeUnit.Week`: 4,294,967,299 days wraps to 3 days. When no 3-day `TTL_CreatedAt` index is listed, a 3-day TTL index is created. | The exact day count, which is too long for a TimeSpan and throws, as the `Day` case does for large amounts (OverflowException with the `double` overloads of .NET 8 and earlier). | medium, not executed; it assumes the project does not enable overflow checking | `ExpireTime.GetExpireTimeAsWritten`, `ExpireTime.WeekProductWraps`, `MongoNetRepo.AutoDeleteAsWrittenWeekWrap` | `ExpireTime.GetExpireTime`, `ExpireTime.WrapOnlyWhereIntendedOverflows` |

The rest of the model (`Repo.AutoDelete`) uses the corrected `GetExpireTime`.
`AutoDeleteAsWrittenWeekWrap` shows what the as-written conversion does once the ensure-index step uses it.

## Left out

- MongoNetRepo.Repo.AutoDelete: it uses the corrected conversion `GetExpireTime`. Where the 32-bit day count of a week, month or year amount wraps, the source instead creates an index with the wrapped duration (see "## Findings" and `AutoDeleteAsWrittenWeekWrap`).
- ExpireTime.GetExpireTime: it assumes the `double` overloads of `TimeSpan.FromSeconds`, `FromMinutes` and `FromDays` of .NET 8 and earlier, where a too-long duration throws OverflowException. On .NET 9 and later, overload resolution picks `FromDays(int)`, which throws ArgumentOutOfRangeException beyond 10,675,199 days. The target framework is not known here. The source's implicit usings need .NET 6 or later, so it is either .NET 6 to 8, with the `double` overloads modelled, or .NET 9 and later, with the integer overloads.

- MongoNetRepo.Repo.SetCollection: it binds a collection for any name, the empty name included. The driver's own `GetCollection` throws ArgumentException on an empty name and refuses names it considers invalid, such as one holding a NUL character. That validation is driver code and is not modelled, so `SetCollection`'s "passes if and only if there is a database handle" is stronger than what the source guarantees. `MongoNetRepo.Database.GetCollection` likewise accepts every name.
- All driver pass-throughs: the insert of `Create`, `Delete`, `DeleteAllDocuments`, both `Get` overloads, `GetTop`, both `FilterBy` overloads, `Replace`, `GetById` and `GetAsQuerable`. The store's semantics belong to the driver, not to this code.
- `GetTextSearchResults`, `GetRegexSearchResults` and `GetResultsFromPipelineDefinition`: they only build `$search`/`$match` BSON pipelines and deserialise results.
- `ObjectId` parsing and construction: foreign library code.
- Constructing `MongoClient` from the connection string: network I/O. The constructor takes the database handle (possibly null) as a parameter instead.
- `async`/`Task`: every operation is a sequential method, and an exception is a `Failure`/`Fail` result.
- `DateTime.UtcNow`: "now" is a parameter. DateTime's range and kind are not modelled.
- The reflection lookup of `CreatedAt` is a single boolean of the entity type. A `CreatedAt` property without a setter, which would make `SetValue` throw, is not represented.
- `TimeSpan` and `double`: durations are whole seconds, and `expireAfterSeconds` is an optional integer. A stored fractional value, which the one-second tolerance would also accept, is not represented.
- An index entry with no `key` element, or one whose `name` is not a string, would make the source's BSON accessors throw. Such entries are not representable, because the server always lists a key document and a string name.
- The server's own behaviour on `CreateOneAsync` is not modelled. This includes rejecting a second index named `TTL_CreatedAt` with other options, and the `_id_` index a collection gets when it is created. Creating an index is an append.
- The created key is the element name `CreatedAt`. This assumes the entity's `CreatedAt` property serialises under its own name. If a `[BsonElement]` attribute or a naming convention renders it otherwise, for example as `createdAt`, the check `key.Names.Contains("CreatedAt")` never recognises the index the code created. Every call then issues `CreateOneAsync` again, and the idempotence of `EnsureTtlIndexIdempotent` and `AutoDeleteTwice` does not hold for the source.
- The entity type is taken to be a class, as `DocumentBase` is, so `Document` is a reference type. For a struct entity, `SetValue` stamps a boxed copy, and the caller's entity keeps its old `CreatedAt`. `AutoDelete`'s stamp clause does not cover that case.
- The `TimeUnit` enumeration's declaration is not part of this model. Its six named members are modelled, and any other value is `Undefined`.
- `DataBaseSettings.cs`, `IDocument.cs`, `IMongoNetRepo.cs` and `DocumentBase.cs` are configuration classes and interfaces with no logic of their own. `DocumentBase`'s clock-based default for `CreatedAt` is replaced by a constructor argument.

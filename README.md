# solana-balance-fetch: batch balance resolution and API-key store

This project models the two pieces of sequential logic in the Go service `solana-balance-fetch`.

**Per-address resolver and batch handler** (`main.go`, modules `Resolver` and `Handler`).
- `GetSolBalance` is a cache-aside read.
  - A usable cache record is returned as served from cache.
  - Anything else (a miss or a cache error) goes to the upstream provider.
  - A provider failure yields a zero balance and the error.
  - A provider success queues a fire-and-forget cache write of the same amount.
- The cache lookup, the provider's answer and the clock reading are inputs.
- The `POST /api/get-balance` handler rejects an empty wallet list with 400.
  - Otherwise it resolves every listed address.
  - It fans the outcomes in to a balances map and an errors map.
  - It sets `X-Cache` to HIT only when every unit was served from the cache.
- The goroutines are a sequential loop (`Handler.HandleGetBalance`) over the units in the order they finished.
  - That completion order is an input: any permutation of the request positions.
  - So the proved properties hold for every schedule.
  - With duplicate addresses, the unit that finished last decides the balance.
  - The failing unit that finished last decides the error text.
  - For distinct addresses, the response does not depend on the completion order.
- Lock acquire and release outcomes are inputs too. They reach only the log.

**API-key store** (`auth.go`, module `Auth`).
- The package-level `apiKeys` set and `lastSyncTime` watermark are the fields of class `Auth.KeyStore`.
- A Mongo query is modelled by its result.
  - Either the find failed, or it opened a cursor.
  - A cursor is the records it decoded, plus the reason iteration stopped.
- `LoadAllAPIKeys` builds a fresh set and installs it only when no document failed to decode.
- `FetchUpdatedAPIKeys` applies upserts and deletes in place and keeps them on a decode error.
- Both advance the watermark to the latest `LastUpdated` they saw.
- `AuthMiddleware` is a function of the header and the current key set.

Some behaviour of the code as written is worth knowing. The model keeps it:
- `LoadAllAPIKeys` advances `lastSyncTime` over the records it read even when a later decode error makes it keep the old key set (auth.go:42-48). Its only caller panics on that error (auth.go:115-117).
- Neither loader checks `cursor.Err()`. A cursor that stops because iteration failed is treated like an exhausted one. `LoadAllAPIKeys` then installs the partial set and reports success.
- A record with an empty key can enter the key set. The middleware still refuses an empty header as missing.
- The lock is taken around the whole `GetSolBalance` call, so a cache hit still takes it (main.go:119-143).

## Model

| member | source | states |
|---|---|---|
| `Resolver.GetSolBalance` | main.go:33-65 | Served from cache exactly on a cache hit, and then the provider is not called and nothing is cached. Fails exactly when there is no usable cache record and the provider fails; then the amount is 0, the provider's error is returned and no write is queued. A successful live fetch returns the provider's amount and queues a write of that amount for this address, stamped with the clock. |
| `Resolver.HitIgnoresProvider` | main.go:35-38 | On a cache hit the result is the same whatever the provider would have answered, and the provider is not called. |
| `Resolver.CacheErrorActsAsMiss` | main.go:35-47 | A cache read error gives exactly the result of a cache miss; both fall through to the provider. |
| `Handler.RunUnit` | main.go:114-148 | One finished unit's writes are exactly `Record` of the shared state: its balance (0 on failure), its error entry on failure, the cleared flag on a live fetch, its cache write and its lock log lines. Other addresses' balance and error entries are untouched, and `allFromCache` is only ever cleared, never set. |
| `Handler.HandleGetBalance` | main.go:96-157 | The handler loop computes exactly the specified response and log for any completion order. An empty list gives 400 and nothing else does. A served response has exactly the requested addresses as balance keys. |
| `Handler.FanInShape` | main.go:103-147 | After any sequence of finished units: the balance keys are exactly their addresses; the error keys are exactly the addresses of failed units; `allFromCache` holds iff every unit was served from cache. |
| `Handler.LastWriterWins` | main.go:145-147 | For an address, the unit that finished last decides its balance: 0 on failure, the resolved amount otherwise. |
| `Handler.LastFailureWins` | main.go:128-133 | For an address, the failing unit that finished last decides its error text. |
| `Handler.DistinctTaskOutcome` | main.go:128-147 | With distinct addresses, each address's balance is its own unit's, and it has an error entry iff its own unit failed, holding that unit's error text. |
| `Handler.CompletionAddresses` | main.go:112-114 | Every request position is spawned and finishes, so the finished units cover exactly the requested addresses. |
| `Handler.ResponseCoversWallets` | main.go:103-157 | A served response lists every requested address in the balances map and no other. The errors map holds only requested addresses and every failed one. `X-Cache` is HIT iff every unit was served from cache. |
| `Handler.DistinctWalletOutcome` | main.go:112-148 | With distinct addresses, for every position: balance 0 plus the error text on failure; the resolved amount and no error entry on success. This holds whatever the completion order. |
| `Handler.CompletionOrderIrrelevant` | main.go:112-151 | With distinct addresses, any two completion orders give the same balances map, errors map and `X-Cache` header. |
| `Handler.LocksOnlyLogged` | main.go:119-143 | Units that differ only in their lock outcomes produce the same balances, errors, flag and cache writes. |
| `Handler.LockFailureDoesNotStopResolution` | main.go:119-125 | The response does not depend on whether the lock was acquired or released. |
| `Handler.LockFailuresLogged` | main.go:120-143 | Every failed lock acquisition and every failed release is logged with its address and error. |
| `Handler.CacheWritesOfUnits` | main.go:56-64 | The queued cache writes are exactly those of the units whose live fetch succeeded. |
| `Handler.CacheAgreesWithResponse` | main.go:56-64 | With distinct addresses, every queued cache write is for a listed address and carries the balance the response reports for it. |
| `Handler.EmptyListRejected` | main.go:96-100 | An empty wallet list is answered 400 "No wallets provided". Nothing is resolved or logged. |
| `Handler.MixedBatchExample` | main.go:112-157 | In either completion order, cached A (5.0) and fetched B (2.0) give balances {A: 5.0, B: 2.0}, no errors, X-Cache MISS and one cache write, for B. |
| `Handler.ProviderFailureExample` | main.go:128-157 | An uncached X whose provider fails gives balances {X: 0}, errors {X: message}, X-Cache MISS and no cache write. |
| `Auth.Watermark` | auth.go:46-48 | The watermark after a run of records is the maximum of the starting time and every record's `LastUpdated`. It never decreases. |
| `Auth.AuthMiddleware` | auth.go:91-104 | A request passes iff the header is non-empty and in the key set. An empty header gets 401 "API key is required". An unknown key gets 401 "Invalid or inactive API key". |
| `Auth.KeyStore.constructor` | auth.go:21-26 | The store starts with no keys and the zero time. |
| `Auth.KeyStore.LoadAllAPIKeys` | auth.go:28-52 | A failed find changes nothing. Otherwise the watermark becomes the latest of its old value and every record read. A decode error is returned and leaves the key set unchanged. Without one, the key set becomes exactly the keys of the records and earlier keys are dropped. |
| `Auth.KeyStore.FetchUpdatedAPIKeys` | auth.go:54-79 | A failed find changes nothing. Otherwise the key set becomes the old set with every record applied in cursor order, even when a decode error stops the loop (no rollback). The watermark advances to the latest timestamp seen. |
| `Auth.UntouchedKeyKept` | auth.go:64-77 | A key that no record names keeps its membership. |
| `Auth.LastRecordDecides` | auth.go:64-73 | When records name a key, the last of them decides: the key is in the set iff that record is active. |
| `Auth.DeactivatedKeyRefused` | auth.go:69-73 | A key whose last record in a poll is inactive is refused by the middleware afterwards. |
| `Auth.ActivatedKeyAdmitted` | auth.go:69-73 | A non-empty key whose last record in a poll is active is admitted by the middleware afterwards. |
| `Auth.LoadedKeysAdmitted` | auth.go:39-50 | After a successful full load, a header passes iff it is non-empty and the key of a loaded record. |
| `Auth.AuthenticationScenario` | api_test.go:62-82 | With the set {"test-key"}: "test-key" passes, "invalid-key" gets 401 invalid, and a missing header gets 401 missing. |

## Left out

- Goroutines, the wait group, the three field mutexes and the 50-slot semaphore (main.go:105-117, main.go:126, main.go:151) are concurrency. The fan-in is a loop over the units in completion order. Each unit's writes are applied together. In a real run, one unit's errors-map write and another unit's balances-map write for the same duplicated address can interleave. The model does not capture that interleaving, and does not capture the bound on concurrent units.
- The redsync lock (mutex.go:13-19) is a foreign library. Lock and unlock outcomes are inputs that reach only the log. The lock name `lock:<address>`, the 3 s expiry, the 3 tries and the 200 ms delay are not modelled, nor is the serialisation the lock gives.
- The Redis client and JSON encoding (redis.go) are left out. A cache lookup is an input. A cache write is recorded as a queued effect, not performed. The `wallet:<address>` key, the 10 s TTL and the fact that the write runs in its own goroutine are not modelled.
- The lamports-to-SOL conversion through `big.Float` and `Float64()` (main.go:53-56) is floating point. The provider's answer is already an amount, modelled as an exact `real` that is only copied.
- `solana.MustPublicKeyFromBase58` (main.go:41) panics on an invalid address; the model treats every address as valid. The RPC `GetBalance` call is a foreign call; its result is an input.
- Request body binding and its 400 "Invalid request format" answer (main.go:89-94) are left out, as are Fiber routing, the response JSON and the rate limiter (main.go:72-85). The model starts from the decoded wallet list.
- `time.Now()` in the cache write is an input per unit.
- Mongo connection, the queries and their filters are I/O (auth.go:33, auth.go:58, auth.go:106-118). The filters `active: true` and `last_updated > lastSyncTime` are applied by Mongo, so the model assumes nothing about the records and its properties hold for any records.
- `Auth.KeyStore`: its operations are treated as atomic steps on one store. In the code, the polling goroutine (auth.go:81-88, started at main.go:70) inserts into and deletes from the `apiKeys` map in place (auth.go:70, auth.go:72). Request goroutines read that map at the same time (auth.go:98), with no synchronisation. This unsynchronised access is not captured. Go's runtime may abort the process with "concurrent map read and map write", and that crash is not captured either.
- `SetupAuthInitialLoad` is startup I/O that panics on error. The ticker loop `StartPollingAPIKeys` (auth.go:81-88) is timing. Neither is modelled.
- Printed log lines are modelled only as log entries for lock failures. The text of the messages and the printing of poll errors are left out.

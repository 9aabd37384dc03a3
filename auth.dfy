/**
 * The API-key store of auth.go: the in-memory key set `apiKeys` and the `lastSyncTime`
 * watermark, filled by a full load and kept current by incremental polls, and the
 * middleware that admits a request only when its `Authorization` header names a key in
 * the set.
 *
 * A Mongo query is modelled by its outcome: it failed, or it opened a cursor. A cursor
 * is the records it decoded, in cursor order, and the reason it stopped.
 */
module Auth {
  import opened Wrappers

  /** Timestamps are integers ordered as Go's `time.Time`; 0 stands for the zero time. */
  const ZeroTime: int := 0

  const StatusUnauthorized: int := 401
  const MissingKeyMessage: string := "API key is required"
  const InvalidKeyMessage: string := "Invalid or inactive API key"

  /** One document of the `api_keys` collection. */
  datatype ApiKey = ApiKey(key: string, active: bool, lastUpdated: int)

  /**
   * Why `cursor.Next` returned false: the results ran out, a document failed to decode,
   * or the iteration itself failed (which the code never asks about).
   */
  datatype CursorStop = Exhausted | DecodeFailed(message: string) | IterationFailed(message: string)

  datatype Cursor = Cursor(records: seq<ApiKey>, stop: CursorStop)

  /** The result of `collection.Find`. */
  datatype Query = FindFailed(message: string) | Found(cursor: Cursor)

  /** The middleware's decision: pass the request on, or answer 401 with a message. */
  datatype AuthDecision = Next | Unauthorized(status: int, message: string)

  /** `u.After(t) ? u : t`: the watermark after seeing a record stamped `u`. */
  function Later(t: int, u: int): int
  {
    if u > t then u else t
  }

  /** The watermark after seeing `records` in order, starting from `t`: the latest of them all. */
  function Watermark(t: int, records: seq<ApiKey>): (w: int)
    ensures w >= t
    ensures forall i :: 0 <= i < |records| ==> w >= records[i].lastUpdated
    ensures w == t || exists i :: 0 <= i < |records| && w == records[i].lastUpdated
    decreases |records|
  {
    if records == [] then t
    else
      var n := |records| - 1;
      var w' := Watermark(t, records[..n]);
      assert forall i :: 0 <= i < n ==> records[..n][i] == records[i];
      Later(w', records[n].lastUpdated)
  }

  /** Reading one more record moves the watermark to it if it is later. */
  lemma WatermarkAppend(t: int, records: seq<ApiKey>, r: ApiKey)
    ensures Watermark(t, records + [r]) == Later(Watermark(t, records), r.lastUpdated)
  {
    assert (records + [r])[..|records|] == records;
  }

  /** The keys named by `records`. */
  function KeysOf(records: seq<ApiKey>): set<string>
  {
    set r | r in records :: r.key
  }

  /** Reading one more record adds its key. */
  lemma KeysOfAppend(records: seq<ApiKey>, r: ApiKey)
    ensures KeysOf(records + [r]) == KeysOf(records) + {r.key}
  {
    assert forall x :: x in records + [r] <==> x in records || x == r;
  }

  /** One incremental update: an active record adds its key, an inactive one removes it. */
  function ApplyUpdate(keys: set<string>, r: ApiKey): set<string>
  {
    if r.active then keys + {r.key} else keys - {r.key}
  }

  /** The key set after applying `records` in cursor order. */
  function ApplyUpdates(keys: set<string>, records: seq<ApiKey>): set<string>
    decreases |records|
  {
    if records == [] then keys
    else ApplyUpdate(ApplyUpdates(keys, records[..|records| - 1]), records[|records| - 1])
  }

  /**
   * `AuthMiddleware`: an empty header is refused as missing, a header that names no key in
   * the set is refused as invalid, and any other request is passed on.
   */
  function AuthMiddleware(header: string, keys: set<string>): (d: AuthDecision)
    ensures d == Next <==> header != "" && header in keys
    ensures header == "" ==> d == Unauthorized(StatusUnauthorized, MissingKeyMessage)
    ensures header != "" && header !in keys ==> d == Unauthorized(StatusUnauthorized, InvalidKeyMessage)
  {
    if header == "" then Unauthorized(StatusUnauthorized, MissingKeyMessage)
    else if header !in keys then Unauthorized(StatusUnauthorized, InvalidKeyMessage)
    else Next
  }

  /** The package-level state of auth.go. */
  class KeyStore {
    var apiKeys: set<string>
    var lastSyncTime: int

    /** The state before the first load: no keys, the zero time. */
    constructor ()
      ensures apiKeys == {} && lastSyncTime == ZeroTime
    {
      apiKeys := {};
      lastSyncTime := ZeroTime;
    }

    /**
     * `LoadAllAPIKeys`: collect the keys of every record into a fresh set and install it
     * only if no record failed to decode. The watermark advances over every record read,
     * also when a later decode error keeps the old key set.
     */
    method LoadAllAPIKeys(q: Query) returns (err: Option<string>)
      modifies this
      ensures lastSyncTime >= old(lastSyncTime)
      ensures q.FindFailed? ==> err == Some(q.message) && apiKeys == old(apiKeys) && lastSyncTime == old(lastSyncTime)
      ensures q.Found? ==> lastSyncTime == Watermark(old(lastSyncTime), q.cursor.records)
      ensures q.Found? ==> (err.Some? <==> q.cursor.stop.DecodeFailed?)
      ensures q.Found? && q.cursor.stop.DecodeFailed? ==> err == Some(q.cursor.stop.message) && apiKeys == old(apiKeys)
      ensures q.Found? && !q.cursor.stop.DecodeFailed? ==> apiKeys == KeysOf(q.cursor.records)
    {
      if q.FindFailed? {
        return Some(q.message);
      }
      var records := q.cursor.records;
      var temp: set<string> := {};
      var i := 0;
      while i < |records|
        invariant 0 <= i <= |records|
        invariant temp == KeysOf(records[..i])
        invariant lastSyncTime == Watermark(old(lastSyncTime), records[..i])
        invariant apiKeys == old(apiKeys)
      {
        var r := records[i];
        temp := temp + {r.key};
        if r.lastUpdated > lastSyncTime {
          lastSyncTime := r.lastUpdated;
        }
        assert records[..i + 1] == records[..i] + [r];
        KeysOfAppend(records[..i], r);
        WatermarkAppend(old(lastSyncTime), records[..i], r);
        i := i + 1;
      }
      assert records[..i] == records;
      if q.cursor.stop.DecodeFailed? {
        return Some(q.cursor.stop.message);
      }
      apiKeys := temp;
      return None;
    }

    /**
     * `FetchUpdatedAPIKeys`: apply each record to the live set in place, advancing the
     * watermark. A decode error ends the loop with the updates so far kept.
     */
    method FetchUpdatedAPIKeys(q: Query) returns (err: Option<string>)
      modifies this
      ensures lastSyncTime >= old(lastSyncTime)
      ensures q.FindFailed? ==> err == Some(q.message) && apiKeys == old(apiKeys) && lastSyncTime == old(lastSyncTime)
      ensures q.Found? ==> apiKeys == ApplyUpdates(old(apiKeys), q.cursor.records)
      ensures q.Found? ==> lastSyncTime == Watermark(old(lastSyncTime), q.cursor.records)
      ensures q.Found? ==> (err.Some? <==> q.cursor.stop.DecodeFailed?)
      ensures q.Found? && q.cursor.stop.DecodeFailed? ==> err == Some(q.cursor.stop.message)
    {
      if q.FindFailed? {
        return Some(q.message);
      }
      var records := q.cursor.records;
      var i := 0;
      while i < |records|
        invariant 0 <= i <= |records|
        invariant apiKeys == ApplyUpdates(old(apiKeys), records[..i])
        invariant lastSyncTime == Watermark(old(lastSyncTime), records[..i])
      {
        var r := records[i];
        if r.active {
          apiKeys := apiKeys + {r.key};
        } else {
          apiKeys := apiKeys - {r.key};
        }
        if r.lastUpdated > lastSyncTime {
          lastSyncTime := r.lastUpdated;
        }
        assert records[..i + 1][..i] == records[..i];
        i := i + 1;
      }
      assert records[..i] == records;
      if q.cursor.stop.DecodeFailed? {
        return Some(q.cursor.stop.message);
      }
      return None;
    }
  }

  /** A key that no record names keeps its membership through an incremental update. */
  lemma {:induction false} UntouchedKeyKept(keys: set<string>, records: seq<ApiKey>, k: string)
    requires forall i :: 0 <= i < |records| ==> records[i].key != k
    ensures k in ApplyUpdates(keys, records) <==> k in keys
    decreases |records|
  {
    if records != [] {
      UntouchedKeyKept(keys, records[..|records| - 1], k);
    }
  }

  /** When a key is named several times, the last record naming it decides its membership. */
  lemma {:induction false} LastRecordDecides(keys: set<string>, records: seq<ApiKey>, i: nat)
    requires i < |records|
    requires forall j :: i < j < |records| ==> records[j].key != records[i].key
    ensures records[i].key in ApplyUpdates(keys, records) <==> records[i].active
    decreases |records|
  {
    if i < |records| - 1 {
      LastRecordDecides(keys, records[..|records| - 1], i);
    }
  }

  /** A key whose last record is inactive is refused once the poll has applied it. */
  lemma {:induction false} DeactivatedKeyRefused(keys: set<string>, records: seq<ApiKey>, i: nat)
    requires i < |records| && !records[i].active
    requires forall j :: i < j < |records| ==> records[j].key != records[i].key
    ensures AuthMiddleware(records[i].key, ApplyUpdates(keys, records)).Unauthorized?
  {
    LastRecordDecides(keys, records, i);
  }

  /** A non-empty key whose last record is active is admitted once the poll has applied it. */
  lemma {:induction false} ActivatedKeyAdmitted(keys: set<string>, records: seq<ApiKey>, i: nat)
    requires i < |records| && records[i].active && records[i].key != ""
    requires forall j :: i < j < |records| ==> records[j].key != records[i].key
    ensures AuthMiddleware(records[i].key, ApplyUpdates(keys, records)) == Next
  {
    LastRecordDecides(keys, records, i);
  }

  /**
   * After a successful full load a request passes exactly when its header is non-empty
   * and is the key of some loaded record; keys held before the load play no part.
   */
  lemma LoadedKeysAdmitted(records: seq<ApiKey>, header: string)
    ensures AuthMiddleware(header, KeysOf(records)) == Next <==>
              header != "" && exists i :: 0 <= i < |records| && records[i].key == header
  {
    if header in KeysOf(records) {
      var r :| r in records && r.key == header;
      var i :| 0 <= i < |records| && records[i] == r;
    }
  }

  /** The authentication test: one stored key passes, an unknown key and a missing header get 401. */
  lemma AuthenticationScenario()
    ensures AuthMiddleware("test-key", {"test-key"}) == Next
    ensures AuthMiddleware("invalid-key", {"test-key"}) == Unauthorized(401, "Invalid or inactive API key")
    ensures AuthMiddleware("", {"test-key"}) == Unauthorized(401, "API key is required")
  {
  }
}

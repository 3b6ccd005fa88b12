/**
 * The manifest ETag records the synchronizer keeps in the local database,
 * seen as a key-value store, and the restrictive-prefix scheme that scopes a
 * row-level manifest ETag to the attachment state and the attachment-set hash
 * it was obtained under.
 */
module ETagCache {
  import opened SyncCommon

  /** A manifest ETag record is keyed by the manifest URI and the table id (none at app level). */
  datatype ManifestKey = ManifestKey(uri: string, tableId: Option<string>)

  /** The database's manifest ETag records; a record may hold null. */
  type ETagStore = map<ManifestKey, Option<string>>

  /** The cached ETag under `key`; a missing record reads as null. */
  function GetManifestSyncETag(store: ETagStore, key: ManifestKey): (r: Option<string>)
    ensures key !in store ==> r == None
    ensures key in store ==> r == store[key]
  {
    if key in store then store[key] else None
  }

  /** Records `tag` (possibly null) under `key`; every other record is kept. */
  function UpdateManifestSyncETag(store: ETagStore, key: ManifestKey, tag: Option<string>): (r: ETagStore)
    ensures GetManifestSyncETag(r, key) == tag
    ensures r.Keys == store.Keys + {key}
    ensures forall k :: k in store && k != key ==> r[k] == store[k]
  {
    store[key := tag]
  }

  /** `attachmentState.name() + "." + uriFragmentHash + "|"`. */
  function RestrictivePrefix(stateName: string, hash: string): string
  {
    stateName + "." + hash + "|"
  }

  /** The record key of the row-level manifest at `manifestUri` for table `tableId`. */
  function RowManifestKey(manifestUri: string, tableId: string): ManifestKey
  {
    ManifestKey(manifestUri, Some(tableId))
  }

  /**
   * The row-level manifest ETag usable under (`stateName`, `hash`): the stored
   * value with the restrictive prefix stripped, or null when no value is stored
   * or the stored value does not start with that prefix.
   */
  function GetRowLevelManifestSyncETag(store: ETagStore, manifestUri: string, tableId: string,
                                       stateName: string, hash: string): (r: Option<string>)
    ensures r.Some? <==>
              (var q := GetManifestSyncETag(store, RowManifestKey(manifestUri, tableId));
               q.Some? && RestrictivePrefix(stateName, hash) <= q.value)
    ensures r.Some? ==>
              GetManifestSyncETag(store, RowManifestKey(manifestUri, tableId))
                == Some(RestrictivePrefix(stateName, hash) + r.value)
  {
    var qualified := GetManifestSyncETag(store, RowManifestKey(manifestUri, tableId));
    var prefix := RestrictivePrefix(stateName, hash);
    if qualified.Some? && prefix <= qualified.value then
      assert qualified.value == prefix + qualified.value[|prefix|..];
      Some(qualified.value[|prefix|..])
    else
      None
  }

  /**
   * Stores `documentETag` behind the restrictive prefix (null stays null).
   * Reading back under the same state and hash yields exactly `documentETag`,
   * and no other record changes.
   */
  function UpdateRowLevelManifestSyncETag(store: ETagStore, manifestUri: string, tableId: string,
                                          stateName: string, hash: string,
                                          documentETag: Option<string>): (r: ETagStore)
    ensures GetManifestSyncETag(r, RowManifestKey(manifestUri, tableId)) ==
              (if documentETag.Some? then Some(RestrictivePrefix(stateName, hash) + documentETag.value)
               else None)
    ensures GetRowLevelManifestSyncETag(r, manifestUri, tableId, stateName, hash) == documentETag
    ensures forall k :: k != RowManifestKey(manifestUri, tableId) ==>
              GetManifestSyncETag(r, k) == GetManifestSyncETag(store, k)
  {
    var qualified := if documentETag.Some? then Some(RestrictivePrefix(stateName, hash) + documentETag.value)
                     else None;
    UpdateManifestSyncETag(store, RowManifestKey(manifestUri, tableId), qualified)
  }

  /** An enum constant's name never contains '.'. */
  predicate IsEnumName(stateName: string)
  {
    '.' !in stateName
  }

  /** The attachment-set hash is a digest that never contains '|'. */
  predicate IsFragmentHash(hash: string)
  {
    '|' !in hash
  }

  /**
   * Under the naming assumptions, one restrictive prefix can start a value
   * written behind another only when both are the same prefix.
   */
  lemma {:induction false} PrefixDeterminesScope(s1: string, h1: string, s2: string, h2: string, t: string)
    requires IsEnumName(s1) && IsEnumName(s2) && IsFragmentHash(h1) && IsFragmentHash(h2)
    requires RestrictivePrefix(s1, h1) <= RestrictivePrefix(s2, h2) + t
    ensures s1 == s2 && h1 == h2
  {
    var p1 := RestrictivePrefix(s1, h1);
    var w := RestrictivePrefix(s2, h2) + t;
    assert forall k :: 0 <= k < |p1| ==> w[k] == p1[k];
    // the first '.' sits right after the state name in both
    assert p1[|s1|] == '.';
    assert w[|s2|] == '.';
    if |s1| < |s2| {
      assert false;
    } else if |s2| < |s1| {
      assert false;
    }
    assert s1 == w[..|s1|] == s2;
    // the first '|' after the '.' ends the hash in both
    var o := |s1| + 1;
    assert p1[o + |h1|] == '|';
    assert w[o + |h2|] == '|';
    if |h1| < |h2| {
      assert false;
    } else if |h2| < |h1| {
      assert false;
    }
    assert h1 == w[o..o + |h1|] == h2;
  }

  /**
   * A row-level tag stored under one (state, hash) pair is returned only for
   * that pair: any other pair at the same manifest URI and table reads null.
   */
  lemma RowLevelIsolation(store: ETagStore, manifestUri: string, tableId: string,
                          s1: string, h1: string, s2: string, h2: string, t: string)
    requires IsEnumName(s1) && IsEnumName(s2) && IsFragmentHash(h1) && IsFragmentHash(h2)
    ensures GetRowLevelManifestSyncETag(
              UpdateRowLevelManifestSyncETag(store, manifestUri, tableId, s1, h1, Some(t)),
              manifestUri, tableId, s2, h2)
            == (if s1 == s2 && h1 == h2 then Some(t) else None)
  {
    var r := UpdateRowLevelManifestSyncETag(store, manifestUri, tableId, s1, h1, Some(t));
    var got := GetRowLevelManifestSyncETag(r, manifestUri, tableId, s2, h2);
    if got.Some? {
      assert RestrictivePrefix(s2, h2) + got.value == RestrictivePrefix(s1, h1) + t;
      PrefixDeterminesScope(s2, h2, s1, h1, t);
    }
  }
}

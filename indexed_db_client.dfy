/** The local store (src/db/indexedDbClient.ts): one IndexedDB database,
    version 1, with the object stores `trains`, `checkins` and `photos`, each
    keyed by the record's `id`, and a module-level handle opened once and then
    reused. */
module IndexedDbClient {
  import opened Types
  import opened IdbOrder

  const DbName := "subway-tracker-db"
  const DbVersion := 1

  datatype StoreName = Trains | Checkins | Photos

  const AllStores: set<StoreName> := {Trains, Checkins, Photos}

  /** Index `by-timestamp` of `checkins`. */
  function ByTimestamp(c: Checkin): IdbKey { NumKey(c.timestamp) }

  /** Index `by-trainId` of `checkins`. */
  function ByTrainId(c: Checkin): IdbKey { StrKey(c.trainId) }

  /** Index `by-checkinId` of `photos`. */
  function ByCheckinId(p: Photo): IdbKey { StrKey(p.checkinId) }

  /** Each store's key path is `id`: a record sits under its own id. */
  ghost predicate TrainsKeyed(m: map<string, Train>) {
    forall k :: k in m ==> m[k].id == k
  }

  ghost predicate CheckinsKeyed(m: map<string, Checkin>) {
    forall k :: k in m ==> m[k].id == k
  }

  ghost predicate PhotosKeyed(m: map<string, Photo>) {
    forall k :: k in m ==> m[k].id == k
  }

  /** Every record of a keyed store appears in any of its scans. */
  lemma ScanHasAll<T>(m: map<string, T>, ik: T -> IdbKey)
    ensures forall k :: k in m ==> m[k] in Scan(m, ik)
  {
    var ks := ScanKeys(m, ik);
    forall k | k in m ensures m[k] in Scan(m, ik) {
      var i :| 0 <= i < |ks| && ks[i] == k;
      assert Scan(m, ik)[i] == m[k];
    }
  }

  /** The object store's own scan of a keyed train store lists every train
      once, under its id, in ascending id order. */
  lemma TrainScan(m: map<string, Train>)
    requires TrainsKeyed(m)
    ensures var s := Scan(m, NoIndex);
      && |s| == |m|
      && (forall i :: 0 <= i < |s| ==> s[i].id in m && m[s[i].id] == s[i])
      && (forall k :: k in m ==> m[k] in s)
      && (forall i, j :: 0 <= i < j < |s| ==> StrBelow(s[i].id, s[j].id))
  {
    var ks := ScanKeys(m, NoIndex);
    var s := Scan(m, NoIndex);
    ScanHasAll(m, NoIndex);
    forall i | 0 <= i < |s| ensures s[i].id in m && m[s[i].id] == s[i] {
      assert s[i] == m[ks[i]];
    }
    forall i, j | 0 <= i < j < |s| ensures StrBelow(s[i].id, s[j].id) {
      assert EntryBelow(NoIndex(m[ks[i]]), ks[i], NoIndex(m[ks[j]]), ks[j]);
      assert s[i] == m[ks[i]] && s[j] == m[ks[j]];
    }
  }

  /** `getAllTrains`: every stored train once, in id order. */
  function AllTrains(m: map<string, Train>): (r: seq<Train>)
    requires TrainsKeyed(m)
    ensures |r| == |m|
    ensures forall i :: 0 <= i < |r| ==> r[i].id in m && m[r[i].id] == r[i]
    ensures forall k :: k in m ==> m[k] in r
    ensures forall i, j :: 0 <= i < j < |r| ==> StrBelow(r[i].id, r[j].id)
  {
    TrainScan(m);
    Scan(m, NoIndex)
  }

  /** Checkins in ascending order of (timestamp, id). */
  predicate Ascending(s: seq<Checkin>) {
    forall i, j :: 0 <= i < j < |s| ==>
      s[i].timestamp < s[j].timestamp || (s[i].timestamp == s[j].timestamp && StrBelow(s[i].id, s[j].id))
  }

  /** Checkins in descending order of (timestamp, id). */
  predicate Descending(s: seq<Checkin>) {
    forall i, j :: 0 <= i < j < |s| ==>
      s[i].timestamp > s[j].timestamp || (s[i].timestamp == s[j].timestamp && StrBelow(s[j].id, s[i].id))
  }

  /** Two checkins of the `by-timestamp` scan, the first before the
      second, are ordered by (timestamp, id). */
  lemma TimestampPair(m: map<string, Checkin>, i: int, j: int)
    requires CheckinsKeyed(m)
    requires 0 <= i < j < |Scan(m, ByTimestamp)|
    ensures var s := Scan(m, ByTimestamp);
      s[i].timestamp < s[j].timestamp || (s[i].timestamp == s[j].timestamp && StrBelow(s[i].id, s[j].id))
  {
    ScanPair(m, ByTimestamp, i, j);
    var s, ks := Scan(m, ByTimestamp), ScanKeys(m, ByTimestamp);
    assert s[i].id == ks[i] && s[j].id == ks[j];
    NumEntryBelow(s[i].timestamp, s[i].id, s[j].timestamp, s[j].id);
  }

  /** The `by-timestamp` scan: ascending timestamps, equal timestamps by
      ascending id. */
  lemma TimestampScanOrder(m: map<string, Checkin>)
    requires CheckinsKeyed(m)
    ensures Ascending(Scan(m, ByTimestamp))
  {
    var s := Scan(m, ByTimestamp);
    forall i, j | 0 <= i < j < |s|
      ensures s[i].timestamp < s[j].timestamp || (s[i].timestamp == s[j].timestamp && StrBelow(s[i].id, s[j].id))
    {
      TimestampPair(m, i, j);
    }
  }

  /** A scan of a keyed checkin store lists records under their own ids. */
  lemma CheckinScanMembers(m: map<string, Checkin>, ik: Checkin -> IdbKey)
    requires CheckinsKeyed(m)
    ensures |Scan(m, ik)| == |m|
    ensures forall i :: 0 <= i < |Scan(m, ik)| ==> Scan(m, ik)[i].id in m && m[Scan(m, ik)[i].id] == Scan(m, ik)[i]
    ensures forall k :: k in m ==> m[k] in Scan(m, ik)
  {
    var ks := ScanKeys(m, ik);
    ScanHasAll(m, ik);
    forall i | 0 <= i < |Scan(m, ik)| ensures Scan(m, ik)[i].id in m && m[Scan(m, ik)[i].id] == Scan(m, ik)[i] {
      assert Scan(m, ik)[i] == m[ks[i]];
    }
  }

  /** Reversing an ascending listing gives a descending one. */
  lemma ReverseAscending(s: seq<Checkin>)
    requires Ascending(s)
    ensures Descending(Reverse(s))
  {
    var r := Reverse(s);
    forall i, j | 0 <= i < j < |r|
      ensures r[i].timestamp > r[j].timestamp || (r[i].timestamp == r[j].timestamp && StrBelow(r[j].id, r[i].id))
    {
      assert r[i] == s[|s| - 1 - i] && r[j] == s[|s| - 1 - j];
    }
  }

  /** Reversing a listing of a keyed checkin store lists it still: every
      record once, under its own id. */
  lemma ReverseLists(m: map<string, Checkin>, s: seq<Checkin>)
    requires |s| == |m|
    requires forall i :: 0 <= i < |s| ==> s[i].id in m && m[s[i].id] == s[i]
    requires forall k :: k in m ==> m[k] in s
    ensures var r := Reverse(s);
      && |r| == |m|
      && (forall i :: 0 <= i < |r| ==> r[i].id in m && m[r[i].id] == r[i])
      && (forall k :: k in m ==> m[k] in r)
  {
    var r := Reverse(s);
    forall i | 0 <= i < |r| ensures r[i].id in m && m[r[i].id] == r[i] {
      assert r[i] == s[|s| - 1 - i];
    }
    forall k | k in m ensures m[k] in r {
      var i :| 0 <= i < |s| && s[i] == m[k];
      assert r[|s| - 1 - i] == m[k];
    }
  }

  /** The reversed `by-timestamp` scan holds every stored checkin, each
      under its own id. */
  lemma NewestFirstMembers(m: map<string, Checkin>)
    requires CheckinsKeyed(m)
    ensures var r := Reverse(Scan(m, ByTimestamp));
      && |r| == |m|
      && (forall i :: 0 <= i < |r| ==> r[i].id in m && m[r[i].id] == r[i])
      && (forall k :: k in m ==> m[k] in r)
  {
    CheckinScanMembers(m, ByTimestamp);
    ReverseLists(m, Scan(m, ByTimestamp));
  }

  /** `getAllCheckins`: the `by-timestamp` scan reversed. Every stored
      checkin comes back once, newest first; checkins with equal timestamps
      come back in descending id order. */
  function NewestFirst(m: map<string, Checkin>): (r: seq<Checkin>)
    requires CheckinsKeyed(m)
    ensures |r| == |m|
    ensures forall i :: 0 <= i < |r| ==> r[i].id in m && m[r[i].id] == r[i]
    ensures forall k :: k in m ==> m[k] in r
    ensures Descending(r)
  {
    NewestFirstMembers(m);
    TimestampScanOrder(m);
    ReverseAscending(Scan(m, ByTimestamp));
    Reverse(Scan(m, ByTimestamp))
  }

  /** A scan of records that share one index key lists them by primary key. */
  lemma SameKeyScanOrder<T>(m: map<string, T>, ik: T -> IdbKey, q: IdbKey)
    requires forall k :: k in m ==> ik(m[k]) == q
    ensures forall i, j :: 0 <= i < j < |ScanKeys(m, ik)| ==> StrBelow(ScanKeys(m, ik)[i], ScanKeys(m, ik)[j])
  {
    KeyBelowIrreflexive(q);
  }

  /** The scan of the records whose index key is `q` is empty exactly when
      no record has that key; otherwise it starts with the least primary key
      among them. */
  lemma FirstOfKey<T>(m: map<string, T>, ik: T -> IdbKey, q: IdbKey)
    ensures var ks := ScanKeys(Only(m, ik, q), ik);
      && (|ks| == 0 <==> forall k :: k in m ==> ik(m[k]) != q)
      && (|ks| > 0 ==> ks[0] in m && ik(m[ks[0]]) == q)
      && (|ks| > 0 ==> forall k :: k in m && ik(m[k]) == q && k != ks[0] ==> StrBelow(ks[0], k))
  {
    var sub := Only(m, ik, q);
    var ks := ScanKeys(sub, ik);
    SameKeyScanOrder(sub, ik, q);
    if |ks| == 0 {
      assert |sub| == 0;
      forall k | k in m ensures ik(m[k]) != q {
        assert k !in sub;
      }
    } else {
      forall k | k in m && ik(m[k]) == q && k != ks[0] ensures StrBelow(ks[0], k) {
        assert k in sub && k in ks;
        var j :| 0 <= j < |ks| && ks[j] == k;
      }
    }
  }

  /** The scan of `by-trainId` restricted to `t` holds exactly the checkins
      of train `t`, in id order. */
  lemma TrainScanContents(m: map<string, Checkin>, trainId: string)
    requires CheckinsKeyed(m)
    ensures var r := Scan(Only(m, ByTrainId, StrKey(trainId)), ByTrainId);
      && (forall i :: 0 <= i < |r| ==> r[i].id in m && m[r[i].id] == r[i] && r[i].trainId == trainId)
      && (forall k :: k in m && m[k].trainId == trainId ==> m[k] in r)
      && (forall i, j :: 0 <= i < j < |r| ==> StrBelow(r[i].id, r[j].id))
  {
    var sub := Only(m, ByTrainId, StrKey(trainId));
    var ks := ScanKeys(sub, ByTrainId);
    var r := Scan(sub, ByTrainId);
    ScanHasAll(sub, ByTrainId);
    SameKeyScanOrder(sub, ByTrainId, StrKey(trainId));
    forall i | 0 <= i < |r| ensures r[i].id in m && m[r[i].id] == r[i] && r[i].trainId == trainId {
      assert r[i] == sub[ks[i]] && r[i].id == ks[i];
    }
    forall k | k in m && m[k].trainId == trainId ensures m[k] in r {
      assert k in sub;
    }
    forall i, j | 0 <= i < j < |r| ensures StrBelow(r[i].id, r[j].id) {
      assert r[i].id == ks[i] && r[j].id == ks[j];
    }
  }

  /** `getCheckinsByTrainId(t)`: exactly the checkins of train `t`, in id
      order. */
  function CheckinsOfTrain(m: map<string, Checkin>, trainId: string): (r: seq<Checkin>)
    requires CheckinsKeyed(m)
    ensures forall i :: 0 <= i < |r| ==> r[i].id in m && m[r[i].id] == r[i] && r[i].trainId == trainId
    ensures forall k :: k in m && m[k].trainId == trainId ==> m[k] in r
    ensures forall i, j :: 0 <= i < j < |r| ==> StrBelow(r[i].id, r[j].id)
  {
    TrainScanContents(m, trainId);
    Scan(Only(m, ByTrainId, StrKey(trainId)), ByTrainId)
  }

  /** `getPhotoByCheckinId(c)`: the first photo of checkin `c` in index
      order, which is the one with the least id; none when `c` has no photo. */
  function PhotoOfCheckin(m: map<string, Photo>, checkinId: string): (r: Option<Photo>)
    requires PhotosKeyed(m)
    ensures r.None? <==> forall k :: k in m ==> m[k].checkinId != checkinId
    ensures r.Some? ==> r.value.id in m && m[r.value.id] == r.value && r.value.checkinId == checkinId
    ensures r.Some? ==> forall k :: k in m && m[k].checkinId == checkinId && k != r.value.id ==>
      StrBelow(r.value.id, k)
  {
    var sub := Only(m, ByCheckinId, StrKey(checkinId));
    var ks := ScanKeys(sub, ByCheckinId);
    FirstOfKey(m, ByCheckinId, StrKey(checkinId));
    if |ks| == 0 then None else Some(sub[ks[0]])
  }

  /** The persisted database: its schema version, the object stores it has
      and their contents. */
  class Database {
    var version: nat
    var storeNames: set<StoreName>
    var trains: map<string, Train>
    var checkins: map<string, Checkin>
    var photos: map<string, Photo>

    /** The only schema this program creates is version 1 with all three
        stores; a store that does not exist holds nothing; every record sits
        under its own id. */
    ghost predicate Valid()
      reads this
    {
      && version <= DbVersion
      && (version == DbVersion ==> storeNames == AllStores)
      && (Trains !in storeNames ==> trains == map[])
      && (Checkins !in storeNames ==> checkins == map[])
      && (Photos !in storeNames ==> photos == map[])
      && TrainsKeyed(trains) && CheckinsKeyed(checkins) && PhotosKeyed(photos)
    }

    /** Opened at the program's schema version. */
    predicate Opened()
      reads this
    {
      version == DbVersion && storeNames == AllStores
    }

    /** The three stores hold exactly `t`, `c` and `p`. */
    ghost predicate Holds(t: map<string, Train>, c: map<string, Checkin>, p: map<string, Photo>)
      reads this
    {
      trains == t && checkins == c && photos == p
    }

    /** A database the browser has not created yet. */
    constructor ()
      ensures Valid() && version == 0 && storeNames == {}
      ensures Holds(map[], map[], map[])
    {
      version := 0;
      storeNames := {};
      trains, checkins, photos := map[], map[], map[];
    }

    /** The `upgrade` callback: creates each of the three stores only if it
        is absent, so stores that exist keep their records. */
    method Upgrade()
      requires Valid()
      modifies this
      ensures Valid()
      ensures storeNames == old(storeNames) + AllStores && version == old(version)
      ensures Holds(old(trains), old(checkins), old(photos))
    {
      if Trains !in storeNames {
        storeNames := storeNames + {Trains};
        trains := map[];
      }
      if Checkins !in storeNames {
        storeNames := storeNames + {Checkins};
        checkins := map[];
      }
      if Photos !in storeNames {
        storeNames := storeNames + {Photos};
        photos := map[];
      }
    }
  }

  /** The module state of indexedDbClient.ts: the database on disk and the
      handle `dbInstance`, null until the first call opens it. */
  class Client {
    const persisted: Database
    var dbInstance: Database?

    ghost predicate Valid()
      reads this, persisted
    {
      persisted.Valid() && (dbInstance != null ==> dbInstance == persisted && persisted.Opened())
    }

    /** The handle is open. */
    ghost predicate Ready()
      reads this, persisted
    {
      Valid() && dbInstance == persisted && persisted.Opened()
    }

    constructor (db: Database)
      requires db.Valid()
      ensures Valid() && persisted == db && dbInstance == null
    {
      persisted := db;
      dbInstance := null;
    }

    /** `initDB`: the first call opens the database, running the upgrade
        when its version is below 1, and keeps the handle; every later call
        returns that same handle and touches nothing. No record changes. */
    method InitDB() returns (db: Database)
      requires Valid()
      modifies this, persisted
      ensures Ready() && db == dbInstance
      ensures old(dbInstance) != null ==> db == old(dbInstance) && unchanged(persisted)
      ensures persisted.Holds(old(persisted.trains), old(persisted.checkins), old(persisted.photos))
    {
      if dbInstance != null {
        return dbInstance;
      }
      if persisted.version < DbVersion {
        persisted.Upgrade();
        persisted.version := DbVersion;
        forall n: StoreName ensures n in AllStores {
          match n
          case Trains =>
          case Checkins =>
          case Photos =>
        }
      }
      dbInstance := persisted;
      db := persisted;
    }

    /** `addTrain`: fails, changing nothing, when the id is taken; otherwise
        inserts exactly `train`. */
    method AddTrain(train: Train) returns (ok: bool)
      requires Valid()
      modifies this, persisted
      ensures Ready()
      ensures ok <==> train.id !in old(persisted.trains)
      ensures persisted.Holds(
        if ok then old(persisted.trains)[train.id := train] else old(persisted.trains),
        old(persisted.checkins), old(persisted.photos))
    {
      var db := InitDB();
      if train.id in db.trains {
        return false;
      }
      db.trains := db.trains[train.id := train];
      ok := true;
    }

    /** `getAllTrains`. */
    method GetAllTrains() returns (r: seq<Train>)
      requires Valid()
      modifies this, persisted
      ensures Ready()
      ensures persisted.Holds(old(persisted.trains), old(persisted.checkins), old(persisted.photos))
      ensures r == AllTrains(persisted.trains)
    {
      var db := InitDB();
      r := AllTrains(db.trains);
    }

    /** `deleteTrain`: removes that train only; checkins and photos that
        refer to it stay. Deleting an absent id changes nothing. */
    method DeleteTrain(trainId: string)
      requires Valid()
      modifies this, persisted
      ensures Ready()
      ensures persisted.Holds(old(persisted.trains) - {trainId}, old(persisted.checkins), old(persisted.photos))
    {
      var db := InitDB();
      db.trains := db.trains - {trainId};
    }

    /** `addCheckin`: fails, changing nothing, when the id is taken;
        otherwise inserts exactly `checkin`. */
    method AddCheckin(checkin: Checkin) returns (ok: bool)
      requires Valid()
      modifies this, persisted
      ensures Ready()
      ensures ok <==> checkin.id !in old(persisted.checkins)
      ensures persisted.Holds(
        old(persisted.trains),
        if ok then old(persisted.checkins)[checkin.id := checkin] else old(persisted.checkins),
        old(persisted.photos))
    {
      var db := InitDB();
      if checkin.id in db.checkins {
        return false;
      }
      db.checkins := db.checkins[checkin.id := checkin];
      ok := true;
    }

    /** `getAllCheckins`. */
    method GetAllCheckins() returns (r: seq<Checkin>)
      requires Valid()
      modifies this, persisted
      ensures Ready()
      ensures persisted.Holds(old(persisted.trains), old(persisted.checkins), old(persisted.photos))
      ensures r == NewestFirst(persisted.checkins)
    {
      var db := InitDB();
      r := NewestFirst(db.checkins);
    }

    /** `getCheckinsByTrainId`. */
    method GetCheckinsByTrainId(trainId: string) returns (r: seq<Checkin>)
      requires Valid()
      modifies this, persisted
      ensures Ready()
      ensures persisted.Holds(old(persisted.trains), old(persisted.checkins), old(persisted.photos))
      ensures r == CheckinsOfTrain(persisted.checkins, trainId)
    {
      var db := InitDB();
      r := CheckinsOfTrain(db.checkins, trainId);
    }

    /** `updateCheckin` is a `put`: afterwards `checkin` sits at its id,
        whether or not that id was present, and every other record is as
        before. */
    method UpdateCheckin(checkin: Checkin)
      requires Valid()
      modifies this, persisted
      ensures Ready()
      ensures persisted.Holds(old(persisted.trains), old(persisted.checkins)[checkin.id := checkin], old(persisted.photos))
    {
      var db := InitDB();
      db.checkins := db.checkins[checkin.id := checkin];
    }

    /** `deleteCheckin`: removes that checkin only; its photos stay. */
    method DeleteCheckin(checkinId: string)
      requires Valid()
      modifies this, persisted
      ensures Ready()
      ensures persisted.Holds(old(persisted.trains), old(persisted.checkins) - {checkinId}, old(persisted.photos))
    {
      var db := InitDB();
      db.checkins := db.checkins - {checkinId};
    }

    /** `addPhoto`: fails, changing nothing, when the id is taken; otherwise
        inserts exactly `photo`. */
    method AddPhoto(photo: Photo) returns (ok: bool)
      requires Valid()
      modifies this, persisted
      ensures Ready()
      ensures ok <==> photo.id !in old(persisted.photos)
      ensures persisted.Holds(
        old(persisted.trains), old(persisted.checkins),
        if ok then old(persisted.photos)[photo.id := photo] else old(persisted.photos))
    {
      var db := InitDB();
      if photo.id in db.photos {
        return false;
      }
      db.photos := db.photos[photo.id := photo];
      ok := true;
    }

    /** `getPhotoById`: the photo stored under `photoId`, none if absent. */
    method GetPhotoById(photoId: string) returns (r: Option<Photo>)
      requires Valid()
      modifies this, persisted
      ensures Ready()
      ensures persisted.Holds(old(persisted.trains), old(persisted.checkins), old(persisted.photos))
      ensures r.None? <==> photoId !in persisted.photos
      ensures r.Some? ==> r.value == persisted.photos[photoId]
    {
      var db := InitDB();
      r := if photoId in db.photos then Some(db.photos[photoId]) else None;
    }

    /** `getPhotoByCheckinId`. */
    method GetPhotoByCheckinId(checkinId: string) returns (r: Option<Photo>)
      requires Valid()
      modifies this, persisted
      ensures Ready()
      ensures persisted.Holds(old(persisted.trains), old(persisted.checkins), old(persisted.photos))
      ensures r == PhotoOfCheckin(persisted.photos, checkinId)
    {
      var db := InitDB();
      r := PhotoOfCheckin(db.photos, checkinId);
    }

    /** `deletePhoto`: removes that photo only. */
    method DeletePhoto(photoId: string)
      requires Valid()
      modifies this, persisted
      ensures Ready()
      ensures persisted.Holds(old(persisted.trains), old(persisted.checkins), old(persisted.photos) - {photoId})
    {
      var db := InitDB();
      db.photos := db.photos - {photoId};
    }
  }
}

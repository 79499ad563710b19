/** The store-driving logic of the history page
    (src/features/history/HistoryPage.tsx): the import merge, the checkin
    delete, the train join of `loadData` and the train filter. Dialogs,
    alerts and React state are left out; the page's loaded lists are
    parameters and results. */
module HistoryPage {
  import opened Types
  import opened JsText
  import opened IdbOrder
  import opened IndexedDbClient
  import opened ExportImport

  // ---------------------------------------------------------------------
  // The import merge, as a function of one object store

  /** Where an import loop ends: the store, the number of records it
      inserted, and whether it went through every element. */
  datatype Merged<T> = Merged(store: map<string, T>, added: nat, ok: bool)

  /** Every record sits under its own id. */
  ghost predicate Keyed<T>(m: map<string, T>, id: T -> string) {
    forall k :: k in m ==> id(m[k]) == k
  }

  /** One import loop over the payload's elements `items`: an element whose
      id is in `existing` (the ids the page had loaded) is skipped; any
      other is added, and the loop stops at the first add that fails
      because the id is in the store. An element that is not a record
      stops the loop too. The `existing` set is never updated. */
  function Merge<T>(store: map<string, T>, existing: set<string>, items: seq<Json>,
                    decode: Json -> Option<T>, id: T -> string): Merged<T>
    decreases |items|
  {
    if items == [] then Merged(store, 0, true)
    else
      match decode(items[0])
      case None => Merged(store, 0, false)
      case Some(x) =>
        if id(x) in existing then Merge(store, existing, items[1..], decode, id)
        else if id(x) in store then Merged(store, 0, false)
        else
          var r := Merge(store[id(x) := x], existing, items[1..], decode, id);
          Merged(r.store, r.added + 1, r.ok)
  }

  /** Every element of `items` is a record. */
  ghost predicate Decodes<T>(items: seq<Json>, decode: Json -> Option<T>) {
    forall i :: 0 <= i < |items| ==> decode(items[i]).Some?
  }

  /** The id of element `i`, which is a record. */
  function IdAt<T>(items: seq<Json>, decode: Json -> Option<T>, id: T -> string, i: int): string
    requires 0 <= i < |items| && decode(items[i]).Some?
  {
    id(decode(items[i]).value)
  }

  /** The payload goes through: every element is a record, a new id is not
      in the store, and no new id occurs twice. */
  ghost predicate Admissible<T>(store: map<string, T>, existing: set<string>, items: seq<Json>,
                                decode: Json -> Option<T>, id: T -> string)
  {
    && Decodes(items, decode)
    && (forall i :: 0 <= i < |items| && IdAt(items, decode, id, i) !in existing ==>
          IdAt(items, decode, id, i) !in store)
    && (forall i, j :: 0 <= i < j < |items| && IdAt(items, decode, id, i) == IdAt(items, decode, id, j) ==>
          IdAt(items, decode, id, i) in existing)
  }

  /** Admissibility of a payload, element by element from the front. */
  lemma AdmissibleStep<T>(store: map<string, T>, existing: set<string>, items: seq<Json>,
                          decode: Json -> Option<T>, id: T -> string)
    requires items != [] && decode(items[0]).Some?
    ensures var k := id(decode(items[0]).value);
      Admissible(store, existing, items, decode, id) <==>
        if k in existing then Admissible(store, existing, items[1..], decode, id)
        else k !in store && Admissible(store[k := decode(items[0]).value], existing, items[1..], decode, id)
  {
    var x := decode(items[0]).value;
    var k := id(x);
    var rest := items[1..];
    var store' := if k in existing then store else store[k := x];
    assert forall i :: 0 <= i < |rest| ==> rest[i] == items[i + 1];
    if Admissible(store, existing, items, decode, id) {
      assert Decodes(rest, decode);
      forall i | 0 <= i < |rest| && IdAt(rest, decode, id, i) !in existing
        ensures IdAt(rest, decode, id, i) !in store'
      {
        assert IdAt(rest, decode, id, i) == IdAt(items, decode, id, i + 1);
        assert IdAt(items, decode, id, 0) == k;
      }
      forall i, j | 0 <= i < j < |rest| && IdAt(rest, decode, id, i) == IdAt(rest, decode, id, j)
        ensures IdAt(rest, decode, id, i) in existing
      {
        assert IdAt(rest, decode, id, i) == IdAt(items, decode, id, i + 1);
        assert IdAt(rest, decode, id, j) == IdAt(items, decode, id, j + 1);
      }
      assert k !in existing ==> k !in store by {
        assert IdAt(items, decode, id, 0) == k;
      }
    }
    if (k in existing || k !in store) && Admissible(store', existing, rest, decode, id) {
      forall i | 0 <= i < |items| ensures decode(items[i]).Some? {
        if i > 0 { assert items[i] == rest[i - 1]; }
      }
      forall i | 0 <= i < |items| && IdAt(items, decode, id, i) !in existing
        ensures IdAt(items, decode, id, i) !in store
      {
        if i > 0 {
          assert IdAt(items, decode, id, i) == IdAt(rest, decode, id, i - 1);
        }
      }
      forall i, j | 0 <= i < j < |items| && IdAt(items, decode, id, i) == IdAt(items, decode, id, j)
        ensures IdAt(items, decode, id, i) in existing
      {
        assert IdAt(items, decode, id, j) == IdAt(rest, decode, id, j - 1);
        if i > 0 {
          assert IdAt(items, decode, id, i) == IdAt(rest, decode, id, i - 1);
        }
      }
    }
  }

  /** The loop goes through exactly when the payload is admissible: it
      stops on an element that is not a record, on a new id already in the
      store, and on the second occurrence of a new id. */
  lemma {:induction false} MergeOkIff<T>(store: map<string, T>, existing: set<string>, items: seq<Json>,
                                         decode: Json -> Option<T>, id: T -> string)
    ensures Merge(store, existing, items, decode, id).ok <==> Admissible(store, existing, items, decode, id)
    decreases |items|
  {
    if items != [] {
      match decode(items[0])
      case None =>
      case Some(x) =>
        AdmissibleStep(store, existing, items, decode, id);
        if id(x) in existing {
          MergeOkIff(store, existing, items[1..], decode, id);
        } else if id(x) !in store {
          MergeOkIff(store[id(x) := x], existing, items[1..], decode, id);
        }
    }
  }

  /** No record is overwritten: every record of the store before the loop
      is still there, unchanged, and records stay under their own ids. */
  lemma {:induction false} MergeKeeps<T>(store: map<string, T>, existing: set<string>, items: seq<Json>,
                                         decode: Json -> Option<T>, id: T -> string)
    ensures var r := Merge(store, existing, items, decode, id);
      forall k :: k in store ==> k in r.store && r.store[k] == store[k]
    ensures Keyed(store, id) ==> Keyed(Merge(store, existing, items, decode, id).store, id)
    decreases |items|
  {
    if items != [] {
      match decode(items[0])
      case None =>
      case Some(x) =>
        if id(x) in existing {
          MergeKeeps(store, existing, items[1..], decode, id);
        } else if id(x) !in store {
          MergeKeeps(store[id(x) := x], existing, items[1..], decode, id);
        }
    }
  }

  /** The count is the number of inserts: the store grows by exactly
      `added` records. */
  lemma {:induction false} MergeCount<T>(store: map<string, T>, existing: set<string>, items: seq<Json>,
                                         decode: Json -> Option<T>, id: T -> string)
    ensures |Merge(store, existing, items, decode, id).store| == |store| + Merge(store, existing, items, decode, id).added
    decreases |items|
  {
    if items != [] {
      match decode(items[0])
      case None =>
      case Some(x) =>
        if id(x) in existing {
          MergeCount(store, existing, items[1..], decode, id);
        } else if id(x) !in store {
          assert store[id(x) := x].Keys == store.Keys + {id(x)};
          MergeCount(store[id(x) := x], existing, items[1..], decode, id);
        }
    }
  }

  /** A record the loop inserts is one of the payload's elements, under an
      id the page had not loaded. */
  lemma {:induction false} MergeInsertsNew<T>(store: map<string, T>, existing: set<string>, items: seq<Json>,
                                              decode: Json -> Option<T>, id: T -> string)
    ensures var r := Merge(store, existing, items, decode, id);
      forall k :: k in r.store && k !in store ==>
        k !in existing && exists i :: 0 <= i < |items| && decode(items[i]) == Some(r.store[k]) && id(r.store[k]) == k
    decreases |items|
  {
    var r := Merge(store, existing, items, decode, id);
    if items != [] {
      match decode(items[0])
      case None =>
      case Some(x) =>
        if id(x) in existing {
          MergeInsertsNew(store, existing, items[1..], decode, id);
          forall k | k in r.store && k !in store
            ensures k !in existing && exists i :: 0 <= i < |items| && decode(items[i]) == Some(r.store[k]) && id(r.store[k]) == k
          {
            var i :| 0 <= i < |items[1..]| && decode(items[1..][i]) == Some(r.store[k]) && id(r.store[k]) == k;
            assert items[1..][i] == items[i + 1];
          }
        } else if id(x) !in store {
          var store' := store[id(x) := x];
          MergeInsertsNew(store', existing, items[1..], decode, id);
          MergeKeeps(store', existing, items[1..], decode, id);
          forall k | k in r.store && k !in store
            ensures k !in existing && exists i :: 0 <= i < |items| && decode(items[i]) == Some(r.store[k]) && id(r.store[k]) == k
          {
            if k == id(x) {
              assert decode(items[0]) == Some(r.store[k]);
            } else {
              var i :| 0 <= i < |items[1..]| && decode(items[1..][i]) == Some(r.store[k]) && id(r.store[k]) == k;
              assert items[1..][i] == items[i + 1];
            }
          }
        }
    }
  }

  /** A payload whose every element's id is among the loaded ids adds
      nothing and goes through. */
  lemma {:induction false} MergeAllKnown<T>(store: map<string, T>, existing: set<string>, items: seq<Json>,
                                            decode: Json -> Option<T>, id: T -> string)
    requires Decodes(items, decode)
    requires forall i :: 0 <= i < |items| ==> IdAt(items, decode, id, i) in existing
    ensures Merge(store, existing, items, decode, id) == Merged(store, 0, true)
    decreases |items|
  {
    if items != [] {
      assert IdAt(items, decode, id, 0) in existing;
      forall i | 0 <= i < |items[1..]| ensures decode(items[1..][i]).Some? && IdAt(items[1..], decode, id, i) in existing {
        assert items[1..][i] == items[i + 1];
        assert IdAt(items, decode, id, i + 1) in existing;
      }
      MergeAllKnown(store, existing, items[1..], decode, id);
    }
  }

  /** After a loop that went through, every element's id is loaded or in
      the store. */
  lemma {:induction false} MergeCovers<T>(store: map<string, T>, existing: set<string>, items: seq<Json>,
                                          decode: Json -> Option<T>, id: T -> string)
    requires Merge(store, existing, items, decode, id).ok
    ensures Decodes(items, decode)
    ensures forall i :: 0 <= i < |items| ==>
      IdAt(items, decode, id, i) in existing || IdAt(items, decode, id, i) in Merge(store, existing, items, decode, id).store
    decreases |items|
  {
    var r := Merge(store, existing, items, decode, id);
    if items != [] {
      var x := decode(items[0]).value;
      var store' := if id(x) in existing then store else store[id(x) := x];
      MergeCovers(store', existing, items[1..], decode, id);
      MergeKeeps(store', existing, items[1..], decode, id);
      forall i | 0 <= i < |items| ensures decode(items[i]).Some? {
        if i > 0 { assert items[i] == items[1..][i - 1]; }
      }
      forall i | 0 <= i < |items| ensures IdAt(items, decode, id, i) in existing || IdAt(items, decode, id, i) in r.store {
        if i > 0 {
          assert items[i] == items[1..][i - 1];
          assert IdAt(items, decode, id, i) == IdAt(items[1..], decode, id, i - 1);
        }
      }
    }
  }

  /** Importing the same payload again, once the page has reloaded the
      ids from the store, skips every element and adds nothing. */
  lemma MergeReimport<T>(store: map<string, T>, existing: set<string>, items: seq<Json>,
                         decode: Json -> Option<T>, id: T -> string)
    requires existing <= store.Keys
    requires Merge(store, existing, items, decode, id).ok
    ensures var after := Merge(store, existing, items, decode, id).store;
      Merge(after, after.Keys, items, decode, id) == Merged(after, 0, true)
  {
    var after := Merge(store, existing, items, decode, id).store;
    MergeCovers(store, existing, items, decode, id);
    MergeKeeps(store, existing, items, decode, id);
    MergeAllKnown(after, after.Keys, items, decode, id);
  }

  // ---------------------------------------------------------------------
  // handleImport

  function TrainKey(t: Train): string { t.id }

  function CheckinKey(c: Checkin): string { c.id }

  /** `{ ...checkin, photoKey: undefined }` of a checkin element read as a
      record. */
  function ImportedCheckin(j: Json): Option<Checkin> {
    match DecodeCheckin(j)
    case None => None
    case Some(c) => Some(c.(photoKey := None))
  }

  /** `new Set(trains.map(t => t.id))`. */
  function TrainIds(trains: seq<Train>): set<string> {
    set i | 0 <= i < |trains| :: trains[i].id
  }

  /** `new Set(checkins.map(c => c.id))`. */
  function CheckinIds(checkins: seq<Checkin>): set<string> {
    set i | 0 <= i < |checkins| :: checkins[i].id
  }

  /** What the import dialog reports. */
  datatype ImportOutcome =
    | EmptyInput
    | InvalidFormat
    | ImportFailed
    | Imported(addedTrains: nat, addedCheckins: nat)

  /** The outcome of an import and the train and checkin stores it leaves. */
  datatype ImportEffect = ImportEffect(outcome: ImportOutcome, trains: map<string, Train>, checkins: map<string, Checkin>)

  /** `handleImport` as a function of the two stores, the ids of the lists
      the page shows, the entered text and `JSON.parse`: blank text and a
      rejected document write nothing; otherwise the train elements are
      merged, and then, if that went through, the checkin elements. */
  function Import(trains: map<string, Train>, checkins: map<string, Checkin>, trainIds: set<string>,
                  checkinIds: set<string>, importText: string, parse: string -> JsonText): ImportEffect
  {
    var trimmed := Trim(importText);
    if trimmed == "" then ImportEffect(EmptyInput, trains, checkins)
    else
      match ParseImportText(parse(trimmed))
      case None => ImportEffect(InvalidFormat, trains, checkins)
      case Some(data) =>
        var rt := Merge(trains, trainIds, data.fields["trains"].items, DecodeTrain, TrainKey);
        if !rt.ok then ImportEffect(ImportFailed, rt.store, checkins)
        else
          var rc := Merge(checkins, checkinIds, data.fields["checkins"].items, ImportedCheckin, CheckinKey);
          ImportEffect(if rc.ok then Imported(rt.added, rc.added) else ImportFailed, rt.store, rc.store)
  }

  /** The train loop of `handleImport`: skips the loaded ids and adds the
      others one by one, stopping at the first failure. */
  method InsertTrains(client: Client, existing: set<string>, items: seq<Json>) returns (added: nat, ok: bool)
    requires client.Valid()
    modifies client, client.persisted
    ensures client.Valid()
    ensures var r := Merge(old(client.persisted.trains), existing, items, DecodeTrain, TrainKey);
      client.persisted.trains == r.store && added == r.added && ok == r.ok
    ensures client.persisted.checkins == old(client.persisted.checkins)
    ensures client.persisted.photos == old(client.persisted.photos)
  {
    added := 0;
    for i := 0 to |items|
      invariant client.Valid()
      invariant client.persisted.checkins == old(client.persisted.checkins)
      invariant client.persisted.photos == old(client.persisted.photos)
      invariant var rest := Merge(client.persisted.trains, existing, items[i..], DecodeTrain, TrainKey);
        Merge(old(client.persisted.trains), existing, items, DecodeTrain, TrainKey)
          == Merged(rest.store, added + rest.added, rest.ok)
    {
      assert items[i..][1..] == items[i + 1..];
      var train := DecodeTrain(items[i]);
      if train.None? {
        ok := false;
        return;
      }
      if train.value.id !in existing {
        var inserted := client.AddTrain(train.value);
        if !inserted {
          ok := false;
          return;
        }
        added := added + 1;
      }
    }
    assert items[|items|..] == [];
    ok := true;
  }

  /** The checkin loop of `handleImport`: like the train loop, each
      checkin added without its photo reference. */
  method InsertCheckins(client: Client, existing: set<string>, items: seq<Json>) returns (added: nat, ok: bool)
    requires client.Valid()
    modifies client, client.persisted
    ensures client.Valid()
    ensures var r := Merge(old(client.persisted.checkins), existing, items, ImportedCheckin, CheckinKey);
      client.persisted.checkins == r.store && added == r.added && ok == r.ok
    ensures client.persisted.trains == old(client.persisted.trains)
    ensures client.persisted.photos == old(client.persisted.photos)
  {
    added := 0;
    for i := 0 to |items|
      invariant client.Valid()
      invariant client.persisted.trains == old(client.persisted.trains)
      invariant client.persisted.photos == old(client.persisted.photos)
      invariant var rest := Merge(client.persisted.checkins, existing, items[i..], ImportedCheckin, CheckinKey);
        Merge(old(client.persisted.checkins), existing, items, ImportedCheckin, CheckinKey)
          == Merged(rest.store, added + rest.added, rest.ok)
    {
      assert items[i..][1..] == items[i + 1..];
      var checkin := DecodeCheckin(items[i]);
      if checkin.None? {
        ok := false;
        return;
      }
      if checkin.value.id !in existing {
        var inserted := client.AddCheckin(checkin.value.(photoKey := None));
        if !inserted {
          ok := false;
          return;
        }
        added := added + 1;
      }
    }
    assert items[|items|..] == [];
    ok := true;
  }

  /** `handleImport`: the stores end as `Import` says; after an import that
      went through, the page reloads its lists from the store, and
      otherwise keeps the lists it had. */
  method HandleImport(client: Client, importText: string, parse: string -> JsonText,
                      trains: seq<Train>, checkins: seq<Checkin>)
    returns (outcome: ImportOutcome, shownCheckins: seq<Checkin>, shownTrains: seq<Train>)
    requires client.Valid()
    modifies client, client.persisted
    ensures client.Valid()
    ensures Import(old(client.persisted.trains), old(client.persisted.checkins), TrainIds(trains), CheckinIds(checkins),
                   importText, parse)
      == ImportEffect(outcome, client.persisted.trains, client.persisted.checkins)
    ensures client.persisted.photos == old(client.persisted.photos)
    ensures outcome.Imported? ==> shownTrains == AllTrains(client.persisted.trains)
    ensures outcome.Imported? ==> shownCheckins == WithTrainNumbers(NewestFirst(client.persisted.checkins), TrainIdMap(shownTrains))
    ensures !outcome.Imported? ==> shownTrains == trains && shownCheckins == checkins
  {
    shownCheckins, shownTrains := checkins, trains;
    var trimmedText := Trim(importText);
    if trimmedText == "" {
      return EmptyInput, shownCheckins, shownTrains;
    }
    var data := ParseImportText(parse(trimmedText));
    if data.None? {
      return InvalidFormat, shownCheckins, shownTrains;
    }
    var existingTrainIds := TrainIds(trains);
    var existingCheckinIds := CheckinIds(checkins);
    var addedTrains, trainsOk := InsertTrains(client, existingTrainIds, data.value.fields["trains"].items);
    if !trainsOk {
      return ImportFailed, shownCheckins, shownTrains;
    }
    var addedCheckins, checkinsOk := InsertCheckins(client, existingCheckinIds, data.value.fields["checkins"].items);
    if !checkinsOk {
      return ImportFailed, shownCheckins, shownTrains;
    }
    shownCheckins, shownTrains := LoadData(client);
    outcome := Imported(addedTrains, addedCheckins);
  }

  // ---------------------------------------------------------------------
  // loadData

  /** The checkins with `trainNumber` set from `trainMap`: the train's id
      when the train is registered, undefined otherwise. */
  function WithTrainNumbers(checkins: seq<Checkin>, trainMap: map<string, string>): (r: seq<Checkin>)
    ensures |r| == |checkins|
  {
    seq(|checkins|, i requires 0 <= i < |checkins| =>
      checkins[i].(trainNumber := if checkins[i].trainId in trainMap then Some(trainMap[checkins[i].trainId]) else None))
  }

  /** `loadData`: every checkin newest first and every train by id, each
      checkin joined with its train. The stores are not changed. */
  method LoadData(client: Client) returns (checkinsWithTrain: seq<Checkin>, trainList: seq<Train>)
    requires client.Valid()
    modifies client, client.persisted
    ensures client.Valid()
    ensures client.persisted.Holds(old(client.persisted.trains), old(client.persisted.checkins), old(client.persisted.photos))
    ensures trainList == AllTrains(client.persisted.trains)
    ensures checkinsWithTrain == WithTrainNumbers(NewestFirst(client.persisted.checkins), TrainIdMap(trainList))
  {
    var checkinList := client.GetAllCheckins();
    trainList := client.GetAllTrains();
    var trainMap := TrainIdMap(trainList);
    checkinsWithTrain := WithTrainNumbers(checkinList, trainMap);
  }

  // ---------------------------------------------------------------------
  // handleDelete

  /** `handleDelete`: once confirmed, deletes the photo under the
      checkin's `photoKey` when it is set, then the checkin, and reloads.
      Nothing else is deleted: not the train, not the photos listed only in
      `photoKeys`. */
  method HandleDelete(client: Client, checkin: Checkin, confirmed: bool, trains: seq<Train>, checkins: seq<Checkin>)
    returns (shownCheckins: seq<Checkin>, shownTrains: seq<Train>)
    requires client.Valid()
    modifies client, client.persisted
    ensures client.Valid()
    ensures !confirmed ==> unchanged(client.persisted) && shownCheckins == checkins && shownTrains == trains
    ensures confirmed ==> client.persisted.Holds(
      old(client.persisted.trains),
      old(client.persisted.checkins) - {checkin.id},
      if IsSet(checkin.photoKey) then old(client.persisted.photos) - {checkin.photoKey.value}
      else old(client.persisted.photos))
    ensures confirmed ==> shownTrains == AllTrains(client.persisted.trains)
    ensures confirmed ==> shownCheckins == WithTrainNumbers(NewestFirst(client.persisted.checkins), TrainIdMap(shownTrains))
  {
    if !confirmed {
      return checkins, trains;
    }
    if IsSet(checkin.photoKey) {
      client.DeletePhoto(checkin.photoKey.value);
    }
    client.DeleteCheckin(checkin.id);
    shownCheckins, shownTrains := LoadData(client);
  }

  // ---------------------------------------------------------------------
  // filteredCheckins

  /** `checkins.filter(c => c.trainId === trainId)`. */
  function FilterByTrain(checkins: seq<Checkin>, trainId: string): (r: seq<Checkin>)
    ensures |r| <= |checkins|
    ensures forall c :: c in r <==> c in checkins && c.trainId == trainId
  {
    if checkins == [] then []
    else
      var last := checkins[|checkins| - 1];
      FilterByTrain(checkins[..|checkins| - 1], trainId) + (if last.trainId == trainId then [last] else [])
  }

  /** The list the page shows: everything for the empty filter, otherwise
      the checkins of the chosen train. */
  function FilteredCheckins(checkins: seq<Checkin>, filterTrainId: string): seq<Checkin> {
    if filterTrainId != "" then FilterByTrain(checkins, filterTrainId) else checkins
  }

  /** The positions of the checkins of train `trainId`, ascending. */
  function MatchingIndices(checkins: seq<Checkin>, trainId: string): (ix: seq<int>)
    ensures forall k :: 0 <= k < |ix| ==> 0 <= ix[k] < |checkins| && checkins[ix[k]].trainId == trainId
    ensures forall j :: 0 <= j < |checkins| && checkins[j].trainId == trainId ==> j in ix
    ensures forall k, l :: 0 <= k < l < |ix| ==> ix[k] < ix[l]
  {
    if checkins == [] then []
    else
      var n := |checkins| - 1;
      MatchingIndices(checkins[..n], trainId) + (if checkins[n].trainId == trainId then [n] else [])
  }

  /** The filtered list keeps the chosen train's checkins in their order:
      it is the list at the matching positions, ascending. */
  lemma {:induction false} FilterKeepsOrder(checkins: seq<Checkin>, trainId: string)
    ensures var ix := MatchingIndices(checkins, trainId);
      FilterByTrain(checkins, trainId) == seq(|ix|, k requires 0 <= k < |ix| => checkins[ix[k]])
  {
    if checkins != [] {
      var n := |checkins| - 1;
      var front := checkins[..n];
      FilterKeepsOrder(front, trainId);
      var ix0 := MatchingIndices(front, trainId);
      var ix := MatchingIndices(checkins, trainId);
      var f0 := FilterByTrain(front, trainId);
      var f := FilterByTrain(checkins, trainId);
      assert |f0| == |ix0|;
      assert f == f0 + (if checkins[n].trainId == trainId then [checkins[n]] else []);
      assert ix == ix0 + (if checkins[n].trainId == trainId then [n] else []);
      forall k | 0 <= k < |ix| ensures f[k] == checkins[ix[k]] {
        if k < |ix0| {
          assert f[k] == f0[k] == front[ix0[k]];
        }
      }
    }
  }

  /** The empty filter shows every loaded checkin in loaded order; any
      other shows exactly the chosen train's checkins, in loaded order. */
  lemma FilteredCheckinsShown(checkins: seq<Checkin>, filterTrainId: string)
    ensures filterTrainId == "" ==> FilteredCheckins(checkins, filterTrainId) == checkins
    ensures filterTrainId != "" ==> var ix := MatchingIndices(checkins, filterTrainId);
      FilteredCheckins(checkins, filterTrainId) == seq(|ix|, k requires 0 <= k < |ix| => checkins[ix[k]])
  {
    if filterTrainId != "" {
      FilterKeepsOrder(checkins, filterTrainId);
    }
  }

  /** The join sets `trainNumber` to the checkin's own `trainId` exactly
      when a loaded train has that id, leaves it undefined otherwise, and
      changes nothing else. */
  lemma TrainJoin(checkins: seq<Checkin>, trains: seq<Train>)
    ensures var r := WithTrainNumbers(checkins, TrainIdMap(trains));
      forall i :: 0 <= i < |checkins| ==>
        && r[i].trainNumber == (if exists j :: 0 <= j < |trains| && trains[j].id == checkins[i].trainId
                                then Some(checkins[i].trainId) else None)
        && r[i].(trainNumber := checkins[i].trainNumber) == checkins[i]
  {
  }

  /** Blank text writes nothing, and neither does text the parser
      rejects. */
  lemma ImportRejects(trains: map<string, Train>, checkins: map<string, Checkin>, trainIds: set<string>,
                      checkinIds: set<string>, importText: string, parse: string -> JsonText)
    ensures var e := Import(trains, checkins, trainIds, checkinIds, importText, parse);
      && (e.outcome == EmptyInput <==> Trim(importText) == "")
      && (e.outcome == InvalidFormat <==> Trim(importText) != "" && ParseImportText(parse(Trim(importText))).None?)
      && (e.outcome == EmptyInput || e.outcome == InvalidFormat ==> e.trains == trains && e.checkins == checkins)
  {
  }

  /** An import never overwrites: every stored train and checkin is still
      there, unchanged, and records stay under their ids. */
  lemma ImportKeeps(trains: map<string, Train>, checkins: map<string, Checkin>, trainIds: set<string>,
                    checkinIds: set<string>, importText: string, parse: string -> JsonText)
    requires TrainsKeyed(trains) && CheckinsKeyed(checkins)
    ensures var e := Import(trains, checkins, trainIds, checkinIds, importText, parse);
      && (forall k :: k in trains ==> k in e.trains && e.trains[k] == trains[k])
      && (forall k :: k in checkins ==> k in e.checkins && e.checkins[k] == checkins[k])
      && TrainsKeyed(e.trains) && CheckinsKeyed(e.checkins)
  {
    var trimmed := Trim(importText);
    if trimmed != "" && ParseImportText(parse(trimmed)).Some? {
      var data := ParseImportText(parse(trimmed)).value;
      MergeKeeps(trains, trainIds, data.fields["trains"].items, DecodeTrain, TrainKey);
      MergeKeeps(checkins, checkinIds, data.fields["checkins"].items, ImportedCheckin, CheckinKey);
      assert Keyed(trains, TrainKey) && Keyed(checkins, CheckinKey);
    }
  }

  /** The reported counts are the numbers of records inserted. */
  lemma ImportCounts(trains: map<string, Train>, checkins: map<string, Checkin>, trainIds: set<string>,
                     checkinIds: set<string>, importText: string, parse: string -> JsonText)
    ensures var e := Import(trains, checkins, trainIds, checkinIds, importText, parse);
      e.outcome.Imported? ==>
        |e.trains| == |trains| + e.outcome.addedTrains && |e.checkins| == |checkins| + e.outcome.addedCheckins
  {
    var trimmed := Trim(importText);
    if trimmed != "" && ParseImportText(parse(trimmed)).Some? {
      var data := ParseImportText(parse(trimmed)).value;
      MergeCount(trains, trainIds, data.fields["trains"].items, DecodeTrain, TrainKey);
      MergeCount(checkins, checkinIds, data.fields["checkins"].items, ImportedCheckin, CheckinKey);
    }
  }

  /** A checkin the import inserts has an id the page had not loaded and
      is a checkin element of the payload with `photoKey` cleared and every
      other field kept. */
  lemma ImportedCheckinsStripped(trains: map<string, Train>, checkins: map<string, Checkin>, trainIds: set<string>,
                                 checkinIds: set<string>, importText: string, parse: string -> JsonText)
    ensures var e := Import(trains, checkins, trainIds, checkinIds, importText, parse);
      forall k :: k in e.checkins && k !in checkins ==>
        && k !in checkinIds
        && e.checkins[k].photoKey.None?
        && exists j, c :: j in ParseImportText(parse(Trim(importText))).value.fields["checkins"].items
             && DecodeCheckin(j) == Some(c) && e.checkins[k] == c.(photoKey := None) && c.id == k
  {
    var e := Import(trains, checkins, trainIds, checkinIds, importText, parse);
    var trimmed := Trim(importText);
    if trimmed != "" && ParseImportText(parse(trimmed)).Some? {
      var data := ParseImportText(parse(trimmed)).value;
      var items := data.fields["checkins"].items;
      var rt := Merge(trains, trainIds, data.fields["trains"].items, DecodeTrain, TrainKey);
      if rt.ok {
        MergeInsertsNew(checkins, checkinIds, items, ImportedCheckin, CheckinKey);
        forall k | k in e.checkins && k !in checkins
          ensures && k !in checkinIds
                  && e.checkins[k].photoKey.None?
                  && exists j, c :: j in items && DecodeCheckin(j) == Some(c) && e.checkins[k] == c.(photoKey := None) && c.id == k
        {
          var i :| 0 <= i < |items| && ImportedCheckin(items[i]) == Some(e.checkins[k]) && CheckinKey(e.checkins[k]) == k;
          var c := DecodeCheckin(items[i]).value;
          assert items[i] in items && DecodeCheckin(items[i]) == Some(c) && e.checkins[k] == c.(photoKey := None);
        }
      }
    }
  }

  /** A train element repeated in the payload under an id the page had not
      loaded makes the second add fail: the import stops there. */
  lemma ImportDuplicateTrainFails(trains: map<string, Train>, checkins: map<string, Checkin>, trainIds: set<string>,
                                  checkinIds: set<string>, importText: string, parse: string -> JsonText, i: int, j: int)
    requires Trim(importText) != "" && ParseImportText(parse(Trim(importText))).Some?
    requires var items := ParseImportText(parse(Trim(importText))).value.fields["trains"].items;
      && 0 <= i < j < |items| && DecodeTrain(items[i]).Some? && DecodeTrain(items[j]).Some?
      && DecodeTrain(items[i]).value.id == DecodeTrain(items[j]).value.id
      && DecodeTrain(items[i]).value.id !in trainIds
    ensures Import(trains, checkins, trainIds, checkinIds, importText, parse).outcome == ImportFailed
  {
    var items := ParseImportText(parse(Trim(importText))).value.fields["trains"].items;
    MergeOkIff(trains, trainIds, items, DecodeTrain, TrainKey);
    assert IdAt(items, DecodeTrain, TrainKey, i) == IdAt(items, DecodeTrain, TrainKey, j);
  }

  /** A listing of every stored train, each under its own id, has exactly
      the stored ids. */
  lemma ListedTrainIds(m: map<string, Train>, r: seq<Train>)
    requires forall i :: 0 <= i < |r| ==> r[i].id in m
    requires forall k :: k in m ==> exists i :: 0 <= i < |r| && r[i].id == k
    ensures TrainIds(r) == m.Keys
  {
  }

  /** The page's train ids after a reload are the stored ids. */
  lemma ReloadedTrainIds(m: map<string, Train>)
    requires TrainsKeyed(m)
    ensures TrainIds(AllTrains(m)) == m.Keys
  {
    var r := AllTrains(m);
    forall k | k in m ensures exists i :: 0 <= i < |r| && r[i].id == k {
      var i :| 0 <= i < |r| && r[i] == m[k];
    }
    ListedTrainIds(m, r);
  }

  /** The join leaves every checkin's id as it was. */
  lemma JoinKeepsIds(s: seq<Checkin>, trainMap: map<string, string>)
    ensures CheckinIds(WithTrainNumbers(s, trainMap)) == CheckinIds(s)
  {
    var r := WithTrainNumbers(s, trainMap);
    assert forall i :: 0 <= i < |s| ==> r[i].id == s[i].id;
  }

  /** A listing of every stored checkin, each under its own id, has
      exactly the stored ids. */
  lemma ListedCheckinIds(m: map<string, Checkin>, r: seq<Checkin>)
    requires forall i :: 0 <= i < |r| ==> r[i].id in m
    requires forall k :: k in m ==> exists i :: 0 <= i < |r| && r[i].id == k
    ensures CheckinIds(r) == m.Keys
  {
  }

  /** The page's checkin ids after a reload are the stored ids. */
  lemma ReloadedCheckinIds(m: map<string, Checkin>, trainMap: map<string, string>)
    requires CheckinsKeyed(m)
    ensures CheckinIds(WithTrainNumbers(NewestFirst(m), trainMap)) == m.Keys
  {
    var s := NewestFirst(m);
    JoinKeepsIds(s, trainMap);
    forall k | k in m ensures exists i :: 0 <= i < |s| && s[i].id == k {
      var i :| 0 <= i < |s| && s[i] == m[k];
    }
    ListedCheckinIds(m, s);
  }

  /** Importing the same text again into the stores an import that went
      through left, with every stored id counted as loaded, adds nothing. */
  lemma ReimportStores(trains: map<string, Train>, checkins: map<string, Checkin>, trainIds: set<string>,
                       checkinIds: set<string>, importText: string, parse: string -> JsonText)
    requires trainIds <= trains.Keys && checkinIds <= checkins.Keys
    requires Import(trains, checkins, trainIds, checkinIds, importText, parse).outcome.Imported?
    ensures var e := Import(trains, checkins, trainIds, checkinIds, importText, parse);
      Import(e.trains, e.checkins, e.trains.Keys, e.checkins.Keys, importText, parse)
        == ImportEffect(Imported(0, 0), e.trains, e.checkins)
  {
    var data := ParseImportText(parse(Trim(importText))).value;
    MergeReimport(trains, trainIds, data.fields["trains"].items, DecodeTrain, TrainKey);
    MergeReimport(checkins, checkinIds, data.fields["checkins"].items, ImportedCheckin, CheckinKey);
  }

  /** Importing the same text again after an import that went through,
      with the page's lists reloaded from the store, adds nothing. */
  lemma Reimport(trains: map<string, Train>, checkins: map<string, Checkin>, trainIds: set<string>,
                 checkinIds: set<string>, importText: string, parse: string -> JsonText)
    requires TrainsKeyed(trains) && CheckinsKeyed(checkins)
    requires trainIds <= trains.Keys && checkinIds <= checkins.Keys
    requires Import(trains, checkins, trainIds, checkinIds, importText, parse).outcome.Imported?
    ensures var e := Import(trains, checkins, trainIds, checkinIds, importText, parse);
      TrainsKeyed(e.trains) && CheckinsKeyed(e.checkins)
    ensures var e := Import(trains, checkins, trainIds, checkinIds, importText, parse);
      var shownTrains := AllTrains(e.trains);
      var shownCheckins := WithTrainNumbers(NewestFirst(e.checkins), TrainIdMap(shownTrains));
      Import(e.trains, e.checkins, TrainIds(shownTrains), CheckinIds(shownCheckins), importText, parse)
        == ImportEffect(Imported(0, 0), e.trains, e.checkins)
  {
    var e := Import(trains, checkins, trainIds, checkinIds, importText, parse);
    ImportKeeps(trains, checkins, trainIds, checkinIds, importText, parse);
    var shownTrains := AllTrains(e.trains);
    var shownCheckins := WithTrainNumbers(NewestFirst(e.checkins), TrainIdMap(shownTrains));
    ReloadedTrainIds(e.trains);
    ReloadedCheckinIds(e.checkins, TrainIdMap(shownTrains));
    ReimportStores(trains, checkins, trainIds, checkinIds, importText, parse);
    var tk, ck := TrainIds(shownTrains), CheckinIds(shownCheckins);
    assert tk == e.trains.Keys && ck == e.checkins.Keys;
  }
}

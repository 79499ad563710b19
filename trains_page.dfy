/** The train registry page (src/features/trains/TrainsPage.tsx): adding a
    train under a typed serial number and deleting one. Dialogs and alerts
    are left out; `confirm` is the parameter `confirmed`, the clock the
    parameter `now`. */
module TrainsPage {
  import opened Types
  import opened JsText
  import opened IdbOrder
  import opened IndexedDbClient

  /** What the page reports after an add. */
  datatype AddOutcome = EmptyId | AlreadyListed | AddFailed | Added

  /** `trains.some(t => t.id === trainId)`. */
  predicate Listed(trains: seq<Train>, trainId: string) {
    exists i :: 0 <= i < |trains| && trains[i].id == trainId
  }

  /** `handleAdd` as a function of the train store: a blank entry and a
      serial number the page already lists write nothing; otherwise the
      train `{id: trimmed, createdAt: now}` is added, which fails, changing
      nothing, when the store already has it. */
  function Add(trains: seq<Train>, newTrainId: string, now: int, store: map<string, Train>): (AddOutcome, map<string, Train>) {
    var trainId := Trim(newTrainId);
    if trainId == "" then (EmptyId, store)
    else if Listed(trains, trainId) then (AlreadyListed, store)
    else if trainId in store then (AddFailed, store)
    else (Added, store[trainId := Train(trainId, now)])
  }

  /** `handleAdd`: the guards, then `addTrain`; after an add the list is
      reloaded and the input cleared, otherwise both stay as they were. */
  method HandleAdd(client: Client, trains: seq<Train>, newTrainId: string, now: int)
    returns (outcome: AddOutcome, shown: seq<Train>, input: string)
    requires client.Valid()
    modifies client, client.persisted
    ensures client.Valid()
    ensures Add(trains, newTrainId, now, old(client.persisted.trains)) == (outcome, client.persisted.trains)
    ensures client.persisted.checkins == old(client.persisted.checkins)
    ensures client.persisted.photos == old(client.persisted.photos)
    ensures outcome == Added ==> shown == AllTrains(client.persisted.trains) && input == ""
    ensures outcome != Added ==> shown == trains && input == newTrainId
  {
    shown, input := trains, newTrainId;
    var trainId := Trim(newTrainId);
    if trainId == "" {
      return EmptyId, shown, input;
    }
    var alreadyListed := exists i :: 0 <= i < |trains| && trains[i].id == trainId;
    if alreadyListed {
      return AlreadyListed, shown, input;
    }
    var train := Train(trainId, now);
    var added := client.AddTrain(train);
    if !added {
      return AddFailed, shown, input;
    }
    shown := client.GetAllTrains();
    input := "";
    outcome := Added;
  }

  /** A blank entry, or one the page already lists, writes nothing; the
      add fails, writing nothing, exactly when the store has the id and the
      page does not list it. */
  lemma AddGuards(trains: seq<Train>, newTrainId: string, now: int, store: map<string, Train>)
    ensures var (outcome, after) := Add(trains, newTrainId, now, store);
      && (outcome == EmptyId <==> forall k :: 0 <= k < |newTrainId| ==> IsSpace(newTrainId[k]))
      && (outcome == AlreadyListed <==> Trim(newTrainId) != "" && Listed(trains, Trim(newTrainId)))
      && (outcome == AddFailed <==>
            Trim(newTrainId) != "" && !Listed(trains, Trim(newTrainId)) && Trim(newTrainId) in store)
      && (outcome != Added ==> after == store)
  {
  }

  /** An add that goes through stores exactly one new train: the entry
      without its surrounding spaces, created now, under that id. */
  lemma AddInserts(trains: seq<Train>, newTrainId: string, now: int, store: map<string, Train>)
    requires TrainsKeyed(store)
    ensures var (outcome, after) := Add(trains, newTrainId, now, store);
      outcome == Added ==>
        var trainId := Trim(newTrainId);
        && trainId != "" && !IsSpace(trainId[0]) && !IsSpace(trainId[|trainId| - 1])
        && trainId !in store
        && after == store[trainId := Train(trainId, now)]
        && |after| == |store| + 1
        && TrainsKeyed(after)
  {
  }

  /** `handleDelete`: once confirmed, deletes the train and reloads the
      list. Its checkins and photos are not touched: there is no
      cascade. */
  method HandleDelete(client: Client, trainId: string, confirmed: bool, trains: seq<Train>) returns (shown: seq<Train>)
    requires client.Valid()
    modifies client, client.persisted
    ensures client.Valid()
    ensures !confirmed ==> unchanged(client.persisted) && shown == trains
    ensures confirmed ==> client.persisted.Holds(
      old(client.persisted.trains) - {trainId}, old(client.persisted.checkins), old(client.persisted.photos))
    ensures confirmed ==> shown == AllTrains(client.persisted.trains)
  {
    if !confirmed {
      return trains;
    }
    client.DeleteTrain(trainId);
    shown := client.GetAllTrains();
  }
}

/** The check-in page (src/features/checkin/CheckinPage.tsx): the train
    list it loads and sorts, the train it selects by default, and the
    guarded writes of a submission. The form's fields, the clock, the UTC
    offset and the ids `generateId` draws are parameters. */
module CheckinPage {
  import opened Types
  import opened JsText
  import opened CivilDate
  import opened IndexedDbClient

  // ---------------------------------------------------------------------
  // loadTrains

  /** `parseInt(t.id)`; `None` is `NaN`. */
  function Number(t: Train): Option<int> {
    ParseInt(t.id)
  }

  /** The comparator `key(a) - key(b)` is positive: `a` goes after `b`. A
      `NaN` difference counts as 0, so an element without a key is never
      moved past another. */
  predicate After<T>(key: T -> Option<int>, a: T, b: T) {
    key(a).Some? && key(b).Some? && key(a).value > key(b).value
  }

  /** Every element has a key. */
  ghost predicate AllKeyed<T>(key: T -> Option<int>, s: seq<T>) {
    forall k :: 0 <= k < |s| ==> key(s[k]).Some?
  }

  /** No element sorts after a later one. */
  ghost predicate Sorted<T>(key: T -> Option<int>, s: seq<T>) {
    forall p, q :: 0 <= p < q < |s| ==> !After(key, s[p], s[q])
  }

  /** Halfway through moving element `j` left, in a list sorted up to `i`
      but for it: the others are in order, every one after it up to `i`
      sorts after it, and its two neighbours are in order. */
  ghost predicate Inserting<T>(key: T -> Option<int>, s: seq<T>, i: int, j: int)
    requires 0 <= j <= i < |s|
  {
    && AllKeyed(key, s)
    && (forall p, q :: 0 <= p < q <= i && p != j && q != j ==> !After(key, s[p], s[q]))
    && (forall q :: j < q <= i ==> After(key, s[q], s[j]))
    && (0 < j < i ==> !After(key, s[j - 1], s[j + 1]))
  }

  lemma InsertStart<T>(key: T -> Option<int>, s: seq<T>, i: int)
    requires 0 <= i < |s| && AllKeyed(key, s) && Sorted(key, s[..i])
    ensures Inserting(key, s, i, i)
  {
    assert forall p :: 0 <= p < i ==> s[..i][p] == s[p];
  }

  /** Swapping the moving element with a left neighbour that sorts after
      it moves the hole one place left. */
  lemma InsertSwap<T>(key: T -> Option<int>, s: seq<T>, i: int, j: int)
    requires 0 < j <= i < |s| && Inserting(key, s, i, j) && After(key, s[j - 1], s[j])
    ensures Inserting(key, s[j - 1 := s[j]][j := s[j - 1]], i, j - 1)
    ensures multiset(s[j - 1 := s[j]][j := s[j - 1]]) == multiset(s)
  {
    var t := s[j - 1 := s[j]][j := s[j - 1]];
    assert forall k :: 0 <= k < |s| && k != j - 1 && k != j ==> t[k] == s[k];
    assert t[j - 1] == s[j] && t[j] == s[j - 1];
  }

  /** Once the left neighbour does not sort after it, the list is sorted
      up to `i`. */
  lemma InsertDone<T>(key: T -> Option<int>, s: seq<T>, i: int, j: int)
    requires 0 <= j <= i < |s| && Inserting(key, s, i, j)
    requires j == 0 || !After(key, s[j - 1], s[j])
    ensures AllKeyed(key, s) && Sorted(key, s[..i + 1])
  {
    forall p, q | 0 <= p < q <= i ensures !After(key, s[p], s[q]) {
      if q == j && p < j - 1 {
        assert !After(key, s[p], s[j - 1]);
      } else if p == j && j < q {
        assert After(key, s[q], s[j]);
      }
    }
  }

  /** Exchanges `a[j - 1]` and `a[j]`. */
  method Swap<T>(a: array<T>, j: int)
    requires 0 < j < a.Length
    modifies a
    ensures a[..] == old(a[..])[j - 1 := old(a[j])][j := old(a[j - 1])]
    ensures multiset(a[..]) == multiset(old(a[..]))
  {
    a[j - 1], a[j] := a[j], a[j - 1];
  }

  /** One pass of the insertion sort: moves `a[i]` left past the elements
      that sort after it, so that `a[..i + 1]` is sorted when `a[..i]` was. */
  method InsertAt<T>(a: array<T>, i: int, key: T -> Option<int>, ghost keyed: bool)
    requires 0 <= i < a.Length
    requires keyed ==> AllKeyed(key, a[..]) && Sorted(key, a[..i])
    modifies a
    ensures multiset(a[..]) == multiset(old(a[..]))
    ensures keyed ==> AllKeyed(key, a[..]) && Sorted(key, a[..i + 1])
  {
    if keyed {
      InsertStart(key, a[..], i);
    }
    var j := i;
    while j > 0 && After(key, a[j - 1], a[j])
      invariant 0 <= j <= i
      invariant multiset(a[..]) == multiset(old(a[..]))
      invariant keyed ==> Inserting(key, a[..], i, j)
    {
      if keyed {
        InsertSwap(key, a[..], i, j);
      }
      Swap(a, j);
      j := j - 1;
    }
    if keyed {
      InsertDone(key, a[..], i, j);
    }
  }

  /** `Array.prototype.sort` with the comparator `key(a) - key(b)`, as an
      insertion sort in place. The result is always a rearrangement of the
      array; when every element has a key it is in ascending key order. */
  method SortBy<T>(a: array<T>, key: T -> Option<int>)
    modifies a
    ensures multiset(a[..]) == multiset(old(a[..]))
    ensures AllKeyed(key, old(a[..])) ==> Sorted(key, a[..])
  {
    ghost var keyed := AllKeyed(key, a[..]);
    for i := 0 to a.Length
      invariant multiset(a[..]) == multiset(old(a[..]))
      invariant keyed ==> AllKeyed(key, a[..]) && Sorted(key, a[..i])
    {
      InsertAt(a, i, key, keyed);
    }
  }

  /** With decimal ids, the number order is the order of the ids' decimal
      values. */
  lemma NumericOrder(s: seq<Train>)
    requires forall k :: 0 <= k < |s| ==> IsDecimal(s[k].id)
    ensures AllKeyed(Number, s)
    ensures Sorted(Number, s) ==>
      forall p, q :: 0 <= p < q < |s| ==> DigitsValue(s[p].id, 10) <= DigitsValue(s[q].id, 10)
  {
    forall k | 0 <= k < |s| ensures Number(s[k]) == Some(DigitsValue(s[k].id, 10) as int) {
      ParseDecimal(s[k].id);
    }
  }

  /** In a sorted list of numbered trains the first has the smallest
      number. */
  lemma FirstIsSmallest(s: seq<Train>)
    requires |s| > 0 && AllKeyed(Number, s) && Sorted(Number, s)
    ensures forall k :: 0 <= k < |s| ==> Number(s[0]).value <= Number(s[k]).value
  {
    forall k | 0 < k < |s| ensures Number(s[0]).value <= Number(s[k]).value {
      assert !After(Number, s[0], s[k]);
    }
  }

  /** `trainList.sort((a, b) => parseInt(a.id) - parseInt(b.id))`: the
      same trains, in ascending order of their numbers when every id has
      one. */
  method SortByNumber(trainList: seq<Train>) returns (trains: seq<Train>)
    ensures multiset(trains) == multiset(trainList)
    ensures AllKeyed(Number, trainList) ==> Sorted(Number, trains)
  {
    var sortedTrains := new Train[|trainList|](k requires 0 <= k < |trainList| => trainList[k]);
    assert sortedTrains[..] == trainList;
    SortBy(sortedTrains, Number);
    trains := sortedTrains[..];
  }

  /** `loadTrains`: every registered train, sorted by `parseInt` of its id,
      and the first of them selected when nothing is selected yet. The
      stores are not changed. */
  method LoadTrains(client: Client, selectedTrainId: string) returns (trains: seq<Train>, selected: string)
    requires client.Valid()
    modifies client, client.persisted
    ensures client.Valid()
    ensures client.persisted.Holds(old(client.persisted.trains), old(client.persisted.checkins), old(client.persisted.photos))
    ensures multiset(trains) == multiset(AllTrains(client.persisted.trains))
    ensures AllKeyed(Number, AllTrains(client.persisted.trains)) ==> Sorted(Number, trains)
    ensures selectedTrainId != "" ==> selected == selectedTrainId
    ensures selectedTrainId == "" && |trains| > 0 ==> selected == trains[0].id
    ensures selectedTrainId == "" && |trains| == 0 ==> selected == ""
  {
    var trainList := client.GetAllTrains();
    trains := SortByNumber(trainList);
    selected := selectedTrainId;
    if |trains| > 0 && selectedTrainId == "" {
      selected := trains[0].id;
    }
  }

  // ---------------------------------------------------------------------
  // The checkin's timestamp

  /** `getHours()`, `getMinutes()` and `getSeconds()` of time value `clock`
      in local time, as milliseconds after local midnight: the local time
      of day with its milliseconds dropped. */
  function ClockSeconds(clock: int, offset: int): (r: int)
    ensures 0 <= r <= MsPerDay - MsPerSecond
    ensures r % MsPerSecond == 0
    ensures r <= LocalTimeOfDay(clock, offset) < r + MsPerSecond
  {
    var tod := LocalTimeOfDay(clock, offset);
    var hours, minutes, seconds := tod / MsPerHour, (tod / MsPerMinute) % 60, (tod / MsPerSecond) % 60;
    var r := hours * MsPerHour + minutes * MsPerMinute + seconds * MsPerSecond;
    ClockParts(tod);
    r
  }

  /** Hours, minutes and seconds put back together drop only the
      milliseconds. */
  lemma ClockParts(tod: int)
    requires 0 <= tod < MsPerDay
    ensures (tod / MsPerHour) * MsPerHour + ((tod / MsPerMinute) % 60) * MsPerMinute
      + ((tod / MsPerSecond) % 60) * MsPerSecond == tod - tod % MsPerSecond
  {
    var sec := tod / MsPerSecond;
    var min := sec / 60;
    assert tod / MsPerMinute == min by { DivUnique(tod, MsPerMinute, min); }
    assert tod / MsPerHour == min / 60 by { DivUnique(tod, MsPerHour, min / 60); }
  }

  /** The timestamp as the page computes it: `new Date(selectedDate)` reads
      the date-only string as UTC midnight of day `day`, and `setHours`
      then sets the hours, minutes and seconds of the local day that
      instant falls on, keeping its milliseconds. */
  function SubmittedTimestampAsWritten(day: int, clock: int, offset: int): int {
    var t := day * MsPerDay;
    LocalTime(LocalDay(t, offset), ClockSeconds(clock, offset) + (t + offset) % MsPerSecond, offset)
  }

  /** The timestamp the date picker means: the current local time of day,
      to the second, on local day `day`. */
  function SubmittedTimestamp(day: int, clock: int, offset: int): int {
    LocalTime(day, ClockSeconds(clock, offset), offset)
  }

  /** The checkin lands on the selected local day, at the clock's local
      time of day to the second. */
  lemma SubmittedTimestampDay(day: int, clock: int, offset: int)
    ensures LocalDay(SubmittedTimestamp(day, clock, offset), offset) == day
    ensures LocalTimeOfDay(SubmittedTimestamp(day, clock, offset), offset) == ClockSeconds(clock, offset)
  {
    LocalTimeDay(day, ClockSeconds(clock, offset), offset);
  }

  /** West of UTC the page files the checkin under the day before the one
      selected. */
  lemma AsWrittenWestOfUtc(day: int, clock: int, offset: int)
    requires -MsPerDay < offset < 0
    ensures LocalDay(SubmittedTimestampAsWritten(day, clock, offset), offset) == day - 1
  {
    var t := day * MsPerDay;
    DivUnique(t + offset, MsPerDay, day - 1);
    LocalTimeDay(day - 1, ClockSeconds(clock, offset) + (t + offset) % MsPerSecond, offset);
  }

  /** As written, the checkin lands on the local day of UTC midnight of
      the selected date, at the clock's local time to the second plus the
      milliseconds of that midnight's local time: the selected day at or
      east of UTC, the day before west of it. */
  lemma AsWrittenDay(day: int, clock: int, offset: int)
    ensures LocalDay(SubmittedTimestampAsWritten(day, clock, offset), offset) == LocalDay(day * MsPerDay, offset)
    ensures LocalTimeOfDay(SubmittedTimestampAsWritten(day, clock, offset), offset)
      == ClockSeconds(clock, offset) + (day * MsPerDay + offset) % MsPerSecond
    ensures -MsPerDay < offset < MsPerDay ==>
      LocalDay(SubmittedTimestampAsWritten(day, clock, offset), offset) == if offset < 0 then day - 1 else day
  {
    var t := day * MsPerDay;
    LocalTimeDay(LocalDay(t, offset), ClockSeconds(clock, offset) + (t + offset) % MsPerSecond, offset);
    if -MsPerDay < offset < MsPerDay {
      DivUnique(t + offset, MsPerDay, if offset < 0 then day - 1 else day);
    }
  }

  /** At UTC-5, a checkin for 2024-01-01 (day 19723) is filed under
      2023-12-31, whatever the time of day. */
  lemma AsWrittenNewYorkWinter(clock: int)
    ensures LocalDay(SubmittedTimestampAsWritten(19723, clock, -5 * MsPerHour), -5 * MsPerHour) == 19722
  {
    AsWrittenWestOfUtc(19723, clock, -5 * MsPerHour);
  }

  /** At UTC and east of it, with an offset of whole seconds, the page's
      computation is the intended one. */
  lemma AsWrittenEastOfUtc(day: int, clock: int, offset: int)
    requires 0 <= offset < MsPerDay && offset % MsPerSecond == 0
    ensures SubmittedTimestampAsWritten(day, clock, offset) == SubmittedTimestamp(day, clock, offset)
  {
    var t := day * MsPerDay;
    DivUnique(t + offset, MsPerDay, day);
    DivUnique(t + offset, MsPerSecond, day * 86400 + offset / MsPerSecond);
  }

  // ---------------------------------------------------------------------
  // handleSubmit

  /** The form: the selected train, platform and notes, the attached photo
      (already compressed) if any, and the selected date as a day
      number. */
  datatype Form = Form(selectedTrainId: string, platform: Platform, notes: string, photo: Option<Blob>, selectedDay: int)

  /** What the page reports after a submission. */
  datatype SubmitOutcome = NoTrainSelected | UnknownTrain | CheckinFailed | PhotoFailed | CheckedIn

  /** The outcome, the selection afterwards, and the checkin and photo
      stores a submission leaves. */
  datatype SubmitEffect = SubmitEffect(outcome: SubmitOutcome, selected: string,
                                       checkins: map<string, Checkin>, photos: map<string, Photo>)

  /** The checkin `handleSubmit` builds, with ids `checkinId` and
      `photoId` from `generateId`, `now` from `Date.now()` and the time of
      day from the clock reading `clock`; its timestamp is computed as the
      page does. */
  function NewCheckin(form: Form, checkinId: string, photoId: string, now: int, clock: int, offset: int): Checkin {
    Checkin(checkinId, form.selectedTrainId, form.platform, SubmittedTimestampAsWritten(form.selectedDay, clock, offset),
            form.notes, if form.photo.Some? then Some(photoId) else None, None, None, now, None)
  }

  /** `handleSubmit` as a function of the stores: no selection, or a
      selection that is not a loaded train, writes nothing (the latter
      clears the selection); otherwise the checkin is added, and only once
      it is, the photo under the checkin's `photoKey`. */
  function Submit(trains: seq<Train>, form: Form, checkinId: string, photoId: string, now: int, clock: int, offset: int,
                  checkins: map<string, Checkin>, photos: map<string, Photo>): SubmitEffect
  {
    var sel := form.selectedTrainId;
    if sel == "" then SubmitEffect(NoTrainSelected, sel, checkins, photos)
    else if !(exists i :: 0 <= i < |trains| && trains[i].id == sel) then SubmitEffect(UnknownTrain, "", checkins, photos)
    else
      var c := NewCheckin(form, checkinId, photoId, now, clock, offset);
      if c.id in checkins then SubmitEffect(CheckinFailed, sel, checkins, photos)
      else if form.photo.Some? && IsSet(c.photoKey) then
        if photoId in photos then SubmitEffect(PhotoFailed, sel, checkins[c.id := c], photos)
        else SubmitEffect(CheckedIn, sel, checkins[c.id := c], photos[photoId := Photo(photoId, c.id, form.photo.value, now)])
      else SubmitEffect(CheckedIn, sel, checkins[c.id := c], photos)
  }

  /** `handleSubmit`: the guards, then `addCheckin`, then `addPhoto`; a
      failed write ends the submission. The train store is not touched. */
  method HandleSubmit(client: Client, trains: seq<Train>, form: Form, checkinId: string, photoId: string,
                      now: int, clock: int, offset: int)
    returns (outcome: SubmitOutcome, selected: string)
    requires client.Valid()
    modifies client, client.persisted
    ensures client.Valid()
    ensures Submit(trains, form, checkinId, photoId, now, clock, offset,
                   old(client.persisted.checkins), old(client.persisted.photos))
      == SubmitEffect(outcome, selected, client.persisted.checkins, client.persisted.photos)
    ensures client.persisted.trains == old(client.persisted.trains)
  {
    selected := form.selectedTrainId;
    if selected == "" {
      return NoTrainSelected, selected;
    }
    var trainExists := exists i :: 0 <= i < |trains| && trains[i].id == selected;
    if !trainExists {
      return UnknownTrain, "";
    }
    var checkinTimestamp := SubmittedTimestampAsWritten(form.selectedDay, clock, offset);
    var checkin := Checkin(checkinId, selected, form.platform, checkinTimestamp, form.notes,
                           if form.photo.Some? then Some(photoId) else None, None, None, now, None);
    var added := client.AddCheckin(checkin);
    if !added {
      return CheckinFailed, selected;
    }
    if form.photo.Some? && IsSet(checkin.photoKey) {
      var photoAdded := client.AddPhoto(Photo(checkin.photoKey.value, checkin.id, form.photo.value, now));
      if !photoAdded {
        return PhotoFailed, selected;
      }
    }
    outcome := CheckedIn;
  }

  /** A submission without a selection, or with one that is not a loaded
      train, writes nothing; the second clears the selection. */
  lemma SubmitGuards(trains: seq<Train>, form: Form, checkinId: string, photoId: string, now: int, clock: int,
                     offset: int, checkins: map<string, Checkin>, photos: map<string, Photo>)
    ensures var e := Submit(trains, form, checkinId, photoId, now, clock, offset, checkins, photos);
      && (e.outcome == NoTrainSelected <==> form.selectedTrainId == "")
      && (e.outcome == UnknownTrain <==>
            form.selectedTrainId != "" && forall i :: 0 <= i < |trains| ==> trains[i].id != form.selectedTrainId)
      && (e.outcome == UnknownTrain ==> e.selected == "")
      && (e.outcome != UnknownTrain ==> e.selected == form.selectedTrainId)
      && (e.outcome in {NoTrainSelected, UnknownTrain, CheckinFailed} ==> e.checkins == checkins && e.photos == photos)
  {
  }

  /** A submission that gets past the guards and the checkin write adds
      exactly one checkin: the selected train, platform and notes, created
      now, with a `photoKey` exactly when a photo is attached. It is filed
      under the local day of UTC midnight of the selected date, which west
      of UTC is the day before the selected one. It stays even when the
      photo write fails. */
  lemma SubmitCheckin(trains: seq<Train>, form: Form, checkinId: string, photoId: string, now: int, clock: int,
                      offset: int, checkins: map<string, Checkin>, photos: map<string, Photo>)
    ensures var e := Submit(trains, form, checkinId, photoId, now, clock, offset, checkins, photos);
      e.outcome in {CheckedIn, PhotoFailed} ==>
        && checkinId !in checkins
        && e.checkins.Keys == checkins.Keys + {checkinId}
        && (forall k :: k in checkins ==> e.checkins[k] == checkins[k])
        && var c := e.checkins[checkinId];
           && c.id == checkinId && c.trainId == form.selectedTrainId
           && c.platform == form.platform && c.notes == form.notes && c.createdAt == now
           && (c.photoKey.Some? <==> form.photo.Some?)
           && LocalDay(c.timestamp, offset) == LocalDay(form.selectedDay * MsPerDay, offset)
           && (-MsPerDay < offset < MsPerDay ==>
                 LocalDay(c.timestamp, offset) == if offset < 0 then form.selectedDay - 1 else form.selectedDay)
  {
    var e := Submit(trains, form, checkinId, photoId, now, clock, offset, checkins, photos);
    var c := NewCheckin(form, checkinId, photoId, now, clock, offset);
    AsWrittenDay(form.selectedDay, clock, offset);
    if e.outcome in {CheckedIn, PhotoFailed} {
      assert checkinId !in checkins && e.checkins == checkins[checkinId := c];
      InsertKeeps(checkins, checkinId, c);
    }
  }

  /** Adding key `k` to `m` adds it and keeps every other entry. */
  lemma InsertKeeps<V>(m: map<string, V>, k: string, v: V)
    ensures m[k := v].Keys == m.Keys + {k} && m[k := v][k] == v
    ensures forall x :: x in m && x != k ==> m[k := v][x] == m[x]
  {
  }

  /** The photo is written only after its checkin: it is linked to the new
      checkin by `checkinId`, stored under that checkin's `photoKey`, with
      the same creation time; nothing else in the photo store changes. */
  lemma SubmitPhoto(trains: seq<Train>, form: Form, checkinId: string, photoId: string, now: int, clock: int,
                    offset: int, checkins: map<string, Checkin>, photos: map<string, Photo>)
    ensures var e := Submit(trains, form, checkinId, photoId, now, clock, offset, checkins, photos);
      && (e.photos != photos ==> checkinId !in checkins && checkinId in e.checkins)
      && (e.outcome == CheckedIn && form.photo.Some? && photoId != "" ==>
            && e.checkins[checkinId].photoKey == Some(photoId)
            && e.photos == photos[photoId := Photo(photoId, checkinId, form.photo.value, now)]
            && e.photos[photoId].createdAt == e.checkins[checkinId].createdAt)
      && (form.photo.None? ==> e.photos == photos)
  {
  }
}

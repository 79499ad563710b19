/** The records the check-in log keeps: trains, checkins and photos
    (src/types/index.ts). */
module Types {

  /** An optional value; `None` stands for a TypeScript `undefined` field. */
  datatype Option<+T> = None | Some(value: T)

  /** The two platform codes a checkin can record. */
  type Platform = p: int | p == 1 || p == 10 witness 1

  /** An opaque photo payload: its MIME type and its bytes. */
  datatype Blob = Blob(mimeType: string, bytes: seq<bv8>)

  /** A registered train, keyed by its user-supplied serial number. */
  datatype Train = Train(id: string, createdAt: int)

  /** One check-in event. `photoKey` is the legacy single photo reference,
      `photoKeys` the declared multi-photo list. `trainNumber` is the extra
      field the history page adds when it joins checkins with trains; it is
      part of the record because it travels with it into an export and back
      in through an import. */
  datatype Checkin = Checkin(
    id: string,
    trainId: string,
    platform: Platform,
    timestamp: int,
    notes: string,
    photoKey: Option<string>,
    photoKeys: Option<seq<string>>,
    taskId: Option<string>,
    createdAt: int,
    trainNumber: Option<string>)

  /** A stored photo, owned by the checkin `checkinId`. */
  datatype Photo = Photo(id: string, checkinId: string, blob: Blob, createdAt: int)

  /** JavaScript truthiness of an optional string field: set and non-empty. */
  predicate IsSet(s: Option<string>) {
    s.Some? && s.value != ""
  }
}

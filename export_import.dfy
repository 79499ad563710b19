/** The export/import codec (src/utils/exportImport.ts). The exported
    document is a structured JSON value; `JSON.stringify` and `JSON.parse`
    are represented by `JsonText`, the text as the parser reads it back. The
    readable report is a string built line by line. */
module ExportImport {
  import opened Types
  import opened JsText

  /** A JSON value. Numbers here are the integers the records carry. */
  datatype Json =
    | JNull
    | JBool(b: bool)
    | JNum(n: int)
    | JStr(s: string)
    | JArr(items: seq<Json>)
    | JObj(fields: map<string, Json>)

  /** Text as `JSON.parse` sees it: either no JSON at all (the parser
      throws) or the document it denotes. */
  datatype JsonText = NotJson | JsonOf(doc: Json)

  const FormatVersion := "1.0"

  /** `data[name]` on a parsed document: the property when `data` is an
      object that has it; nothing otherwise. On `null` the access throws,
      and `parseImportText` catches that the same way it catches its own
      rejection, so the outcome is the same. */
  function Field(j: Json, name: string): Option<Json> {
    if j.JObj? && name in j.fields then Some(j.fields[name]) else None
  }

  /** JavaScript truthiness of a property; a missing one is `undefined`. */
  predicate Truthy(v: Option<Json>) {
    match v
    case None => false
    case Some(JNull) => false
    case Some(JBool(b)) => b
    case Some(JNum(n)) => n != 0
    case Some(JStr(s)) => s != ""
    case Some(JArr(_)) => true
    case Some(JObj(_)) => true
  }

  /** `Array.isArray` of a property. */
  predicate IsArray(v: Option<Json>) {
    v.Some? && v.value.JArr?
  }

  // ---------------------------------------------------------------------
  // Records as JSON objects. `JSON.stringify` leaves out a property whose
  // value is `undefined`, so an absent optional field has no key.

  function WithOptStr(f: map<string, Json>, key: string, v: Option<string>): map<string, Json> {
    if v.Some? then f[key := JStr(v.value)] else f
  }

  function EncodeStrs(ss: seq<string>): (r: seq<Json>)
    ensures |r| == |ss| && forall i :: 0 <= i < |ss| ==> r[i] == JStr(ss[i])
  {
    seq(|ss|, i requires 0 <= i < |ss| => JStr(ss[i]))
  }

  function WithOptStrs(f: map<string, Json>, key: string, v: Option<seq<string>>): map<string, Json> {
    if v.Some? then f[key := JArr(EncodeStrs(v.value))] else f
  }

  function EncodeTrain(t: Train): Json {
    JObj(map["id" := JStr(t.id), "createdAt" := JNum(t.createdAt)])
  }

  function EncodeCheckin(c: Checkin): Json {
    var base := map["id" := JStr(c.id), "trainId" := JStr(c.trainId), "platform" := JNum(c.platform),
                    "timestamp" := JNum(c.timestamp), "notes" := JStr(c.notes), "createdAt" := JNum(c.createdAt)];
    JObj(WithOptStr(WithOptStr(WithOptStrs(WithOptStr(base, "photoKey", c.photoKey),
      "photoKeys", c.photoKeys), "taskId", c.taskId), "trainNumber", c.trainNumber))
  }

  /** A string property. */
  function GetStr(f: map<string, Json>, key: string): Option<string> {
    if key in f && f[key].JStr? then Some(f[key].s) else None
  }

  /** A number property. */
  function GetNum(f: map<string, Json>, key: string): Option<int> {
    if key in f && f[key].JNum? then Some(f[key].n) else None
  }

  /** The strings of a JSON array of strings; none if an item is not one. */
  function StrsOf(items: seq<Json>): Option<seq<string>> {
    if items == [] then Some([])
    else if !items[0].JStr? then None
    else
      match StrsOf(items[1..])
      case None => None
      case Some(rest) => Some([items[0].s] + rest)
  }

  /** An optional string property: `Some(None)` when absent, `None` when it
      is present with another type. */
  function GetOptStr(f: map<string, Json>, key: string): Option<Option<string>> {
    if key !in f then Some(None)
    else if f[key].JStr? then Some(Some(f[key].s))
    else None
  }

  /** An optional string-array property, read like `GetOptStr`. */
  function GetOptStrs(f: map<string, Json>, key: string): Option<Option<seq<string>>> {
    if key !in f then Some(None)
    else if f[key].JArr? && StrsOf(f[key].items).Some? then Some(Some(StrsOf(f[key].items).value))
    else None
  }

  /** Reads a train record out of an imported array element. */
  function DecodeTrain(j: Json): Option<Train> {
    if !j.JObj? then None
    else
      var id := GetStr(j.fields, "id");
      var createdAt := GetNum(j.fields, "createdAt");
      if id.None? || createdAt.None? then None
      else Some(Train(id.value, createdAt.value))
  }

  /** Reads a checkin record out of an imported array element. */
  function DecodeCheckin(j: Json): Option<Checkin> {
    if !j.JObj? then None
    else
      var f := j.fields;
      var id, trainId, platform := GetStr(f, "id"), GetStr(f, "trainId"), GetNum(f, "platform");
      var timestamp, notes, createdAt := GetNum(f, "timestamp"), GetStr(f, "notes"), GetNum(f, "createdAt");
      var photoKey, photoKeys := GetOptStr(f, "photoKey"), GetOptStrs(f, "photoKeys");
      var taskId, trainNumber := GetOptStr(f, "taskId"), GetOptStr(f, "trainNumber");
      if || id.None? || trainId.None? || platform.None? || timestamp.None? || notes.None?
         || createdAt.None? || photoKey.None? || photoKeys.None? || taskId.None? || trainNumber.None?
      then None
      else if platform.value != 1 && platform.value != 10 then None
      else
        Some(Checkin(id.value, trainId.value, platform.value, timestamp.value, notes.value,
                     photoKey.value, photoKeys.value, taskId.value, createdAt.value, trainNumber.value))
  }

  lemma {:induction false} StrsOfEncode(ss: seq<string>)
    ensures StrsOf(EncodeStrs(ss)) == Some(ss)
  {
    if ss != [] {
      assert EncodeStrs(ss)[1..] == EncodeStrs(ss[1..]);
      StrsOfEncode(ss[1..]);
      assert [ss[0]] + ss[1..] == ss;
    }
  }

  /** Decoding an encoded train gives the train back. */
  lemma DecodeEncodeTrain(t: Train)
    ensures DecodeTrain(EncodeTrain(t)) == Some(t)
  {
  }

  lemma EncodedStrFields(c: Checkin)
    ensures var f := EncodeCheckin(c).fields;
      GetStr(f, "id") == Some(c.id) && GetStr(f, "trainId") == Some(c.trainId) && GetStr(f, "notes") == Some(c.notes)
  {
  }

  lemma EncodedNumFields(c: Checkin)
    ensures var f := EncodeCheckin(c).fields;
      && GetNum(f, "platform") == Some(c.platform as int) && GetNum(f, "timestamp") == Some(c.timestamp)
      && GetNum(f, "createdAt") == Some(c.createdAt)
  {
  }

  lemma EncodedOptionalFields(c: Checkin)
    ensures var f := EncodeCheckin(c).fields;
      && GetOptStr(f, "photoKey") == Some(c.photoKey) && GetOptStrs(f, "photoKeys") == Some(c.photoKeys)
      && GetOptStr(f, "taskId") == Some(c.taskId) && GetOptStr(f, "trainNumber") == Some(c.trainNumber)
  {
    var f := EncodeCheckin(c).fields;
    if c.photoKeys.Some? {
      StrsOfEncode(c.photoKeys.value);
      assert f["photoKeys"] == JArr(EncodeStrs(c.photoKeys.value));
    }
  }

  /** Decoding an encoded checkin gives the checkin back, optional fields
      included. */
  lemma DecodeEncodeCheckin(c: Checkin)
    ensures DecodeCheckin(EncodeCheckin(c)) == Some(c)
  {
    EncodedStrFields(c);
    EncodedNumFields(c);
    EncodedOptionalFields(c);
  }

  // ---------------------------------------------------------------------
  // exportCheckinsToText and parseImportText

  /** `({ photoKey, ...rest }) => rest`: the same object without its
      `photoKey` property. */
  function WithoutPhotoKey(j: Json): Json {
    if j.JObj? then JObj(j.fields - {"photoKey"}) else j
  }

  /** Dropping `photoKey` from an encoded checkin encodes the checkin whose
      `photoKey` is unset; every other field, `photoKeys` and `trainNumber`
      included, is kept. */
  lemma WithoutPhotoKeyEncode(c: Checkin)
    ensures WithoutPhotoKey(EncodeCheckin(c)) == EncodeCheckin(c.(photoKey := None))
  {
    var a := WithoutPhotoKey(EncodeCheckin(c)).fields;
    var b := EncodeCheckin(c.(photoKey := None)).fields;
    assert a.Keys == b.Keys;
    forall k | k in a ensures a[k] == b[k] {
    }
  }

  /** `exportCheckinsToText(trains, checkins)` with the clock reading `now`:
      the text of the document `{version, exportDate, trains, checkins}`. */
  function ExportCheckinsToText(trains: seq<Train>, checkins: seq<Checkin>, now: int): (text: JsonText)
    ensures text.JsonOf? && text.doc.JObj?
    ensures text.doc.fields.Keys == {"version", "exportDate", "trains", "checkins"}
    ensures text.doc.fields["version"] == JStr(FormatVersion)
    ensures text.doc.fields["exportDate"] == JNum(now)
    ensures text.doc.fields["trains"].JArr? && text.doc.fields["checkins"].JArr?
    ensures |text.doc.fields["trains"].items| == |trains|
    ensures |text.doc.fields["checkins"].items| == |checkins|
  {
    JsonOf(JObj(map[
      "version" := JStr(FormatVersion),
      "exportDate" := JNum(now),
      "trains" := JArr(seq(|trains|, i requires 0 <= i < |trains| => EncodeTrain(trains[i]))),
      "checkins" := JArr(seq(|checkins|, i requires 0 <= i < |checkins| => WithoutPhotoKey(EncodeCheckin(checkins[i]))))]))
  }

  /** The exported checkins are the input checkins, in input order, each
      with only its `photoKey` removed; the exported trains are the input
      trains. */
  lemma ExportedRecords(trains: seq<Train>, checkins: seq<Checkin>, now: int)
    ensures var doc := ExportCheckinsToText(trains, checkins, now).doc;
      && (forall i :: 0 <= i < |trains| ==> doc.fields["trains"].items[i] == EncodeTrain(trains[i]))
      && (forall i :: 0 <= i < |checkins| ==>
            doc.fields["checkins"].items[i] == EncodeCheckin(checkins[i].(photoKey := None)))
  {
    var doc := ExportCheckinsToText(trains, checkins, now).doc;
    forall i | 0 <= i < |checkins|
      ensures doc.fields["checkins"].items[i] == EncodeCheckin(checkins[i].(photoKey := None))
    {
      WithoutPhotoKeyEncode(checkins[i]);
    }
  }

  /** `parseImportText`: rejects (null) text that is not JSON and any
      document whose `version` is falsy or whose `trains` or `checkins` is
      not an array; any other document comes back unchanged, its elements
      unchecked. */
  function ParseImportText(text: JsonText): (r: Option<Json>)
    ensures r.Some? <==>
      && text.JsonOf?
      && Truthy(Field(text.doc, "version"))
      && IsArray(Field(text.doc, "trains"))
      && IsArray(Field(text.doc, "checkins"))
    ensures r.Some? ==> r.value == text.doc && r.value.JObj?
  {
    match text
    case NotJson => None
    case JsonOf(data) =>
      if !Truthy(Field(data, "version")) || !IsArray(Field(data, "trains")) || !IsArray(Field(data, "checkins"))
      then None
      else Some(data)
  }

  /** Round trip: the parser accepts every export, and decoding its
      elements yields the exported trains and the exported checkins with
      `photoKey` cleared, in order. */
  lemma ExportParseRoundTrip(trains: seq<Train>, checkins: seq<Checkin>, now: int)
    ensures var r := ParseImportText(ExportCheckinsToText(trains, checkins, now));
      && r.Some?
      && |r.value.fields["trains"].items| == |trains|
      && |r.value.fields["checkins"].items| == |checkins|
      && (forall i :: 0 <= i < |trains| ==> DecodeTrain(r.value.fields["trains"].items[i]) == Some(trains[i]))
      && (forall i :: 0 <= i < |checkins| ==>
            DecodeCheckin(r.value.fields["checkins"].items[i]) == Some(checkins[i].(photoKey := None)))
  {
    var text := ExportCheckinsToText(trains, checkins, now);
    ExportedRecords(trains, checkins, now);
    assert Truthy(Field(text.doc, "version"));
    forall i | 0 <= i < |trains| ensures DecodeTrain(text.doc.fields["trains"].items[i]) == Some(trains[i]) {
      DecodeEncodeTrain(trains[i]);
    }
    forall i | 0 <= i < |checkins|
      ensures DecodeCheckin(text.doc.fields["checkins"].items[i]) == Some(checkins[i].(photoKey := None))
    {
      DecodeEncodeCheckin(checkins[i].(photoKey := None));
    }
  }

  // ---------------------------------------------------------------------
  // exportCheckinsToReadableText

  /** The decimal digit of `d`. */
  function Digit(d: nat): char
    requires d < 10
  {
    ['0', '1', '2', '3', '4', '5', '6', '7', '8', '9'][d]
  }

  /** `${n}` for a non-negative integer: its decimal digits, which read back
      as `n`. */
  function NatToString(n: nat): (s: string)
    ensures IsDecimal(s)
    ensures DigitsValue(s, 10) == n
  {
    if n < 10 then [Digit(n)]
    else
      var s := NatToString(n / 10) + [Digit(n % 10)];
      assert s[..|s| - 1] == NatToString(n / 10);
      s
  }

  /** The printed count reads back, through `parseInt`, as the count. */
  lemma NatToStringParses(n: nat)
    ensures ParseInt(NatToString(n)) == Some(n)
  {
    ParseDecimal(NatToString(n));
  }

  /** `new Map(trains.map(t => [t.id, t.id]))`: each registered id maps to
      itself. */
  function TrainIdMap(trains: seq<Train>): (r: map<string, string>)
    ensures forall k :: k in r <==> exists i :: 0 <= i < |trains| && trains[i].id == k
    ensures forall k :: k in r ==> r[k] == k
  {
    var ids := set i | 0 <= i < |trains| :: trains[i].id;
    map k | k in ids :: k
  }

  /** `trainMap.get(trainId) || trainId`. */
  function TrainLabel(trainMap: map<string, string>, trainId: string): string {
    if trainId in trainMap && trainMap[trainId] != "" then trainMap[trainId] else trainId
  }

  /** The label of every block is the checkin's own train id, whether or
      not that train is registered. */
  lemma TrainLabelIsTrainId(trains: seq<Train>, trainId: string)
    ensures TrainLabel(TrainIdMap(trains), trainId) == trainId
  {
  }

  /** The header lines: title, the date, the count `n`, and a rule of 30
      `=` between blank lines. */
  function TitleLine(): string { "📊 지하철 체크인 기록\n" }
  function DateLine(today: string): string { "날짜: " + today + "\n" }
  function CountLine(n: nat): string { "총 " + NatToString(n) + "건\n" }
  function RuleLine(): string { "\n" + seq(30, _ => '=') + "\n\n" }

  function HeaderLines(today: string, n: nat): seq<string> {
    [TitleLine(), DateLine(today), CountLine(n), RuleLine()]
  }

  /** The lines of one block. */
  function NumberLine(index: nat, when: string): string { "[" + NatToString(index) + "] " + when + "\n" }
  function TrainLine(shown: string): string { "🚇 열차: " + shown + "\n" }
  function PlatformLine(p: Platform): string { "📍 플랫폼: " + NatToString(p) + "번\n" }
  function NotesLine(notes: string): string { "📝 메모: " + notes + "\n" }
  function BlankLine(): string { "\n" }

  /** The lines of block `index` (1-based) for checkin `c`, its train shown
      as `shown` and its time formatted as `when`: number and time, train,
      platform, the notes line only when `notes` is non-empty, and a blank
      line. */
  function BlockLines(index: nat, c: Checkin, shown: string, when: string): seq<string> {
    [NumberLine(index, when), TrainLine(shown), PlatformLine(c.platform)]
    + (if c.notes != "" then [NotesLine(c.notes)] else [])
    + [BlankLine()]
  }

  /** A block has a notes line exactly when its checkin has notes, and then
      that line carries those notes. */
  lemma NotesLineIffNotes(index: nat, c: Checkin, shown: string, when: string)
    ensures (exists i :: 0 <= i < |BlockLines(index, c, shown, when)| && BlockLines(index, c, shown, when)[i] == NotesLine(c.notes))
      <==> c.notes != ""
    ensures |BlockLines(index, c, shown, when)| == if c.notes != "" then 5 else 4
  {
    var ls := BlockLines(index, c, shown, when);
    var nl := NotesLine(c.notes);
    assert nl[0] == '📝';
    if c.notes == "" {
      forall i | 0 <= i < |ls| ensures ls[i] != nl {
        assert ls[i][0] != '📝';
      }
    } else {
      assert ls[3] == nl;
    }
  }

  /** The concatenation of `parts`, in order. */
  function Concat(parts: seq<string>): string {
    if parts == [] then "" else Concat(parts[..|parts| - 1]) + parts[|parts| - 1]
  }

  /** The lists of `blocks`, one after another. */
  function Flatten(blocks: seq<seq<string>>): seq<string> {
    if blocks == [] then [] else Flatten(blocks[..|blocks| - 1]) + blocks[|blocks| - 1]
  }

  lemma ConcatSnoc(xs: seq<string>, x: string)
    ensures Concat(xs + [x]) == Concat(xs) + x
  {
    assert (xs + [x])[..|xs|] == xs;
  }

  /** The report's blocks: one per checkin, in input order, block `i`
      numbered `i + 1`, its train labelled through `trainMap` and its time
      formatted by `stamp`. */
  function Blocks(trainMap: map<string, string>, checkins: seq<Checkin>, stamp: int -> string): (r: seq<seq<string>>)
    ensures |r| == |checkins|
    ensures forall i :: 0 <= i < |checkins| ==>
      r[i] == BlockLines(i + 1, checkins[i], TrainLabel(trainMap, checkins[i].trainId), stamp(checkins[i].timestamp))
  {
    seq(|checkins|, i requires 0 <= i < |checkins| =>
      BlockLines(i + 1, checkins[i], TrainLabel(trainMap, checkins[i].trainId), stamp(checkins[i].timestamp)))
  }

  /** The lines of the whole report. */
  function ReportLines(trains: seq<Train>, checkins: seq<Checkin>, today: string, stamp: int -> string): seq<string> {
    HeaderLines(today, |checkins|) + Flatten(Blocks(TrainIdMap(trains), checkins, stamp))
  }

  lemma FlattenSnoc(blocks: seq<seq<string>>, i: nat)
    requires i < |blocks|
    ensures Flatten(blocks[..i + 1]) == Flatten(blocks[..i]) + blocks[i]
  {
    assert blocks[..i + 1][..i] == blocks[..i];
  }

  /** One more block appends that block's text. */
  lemma ReportStep(header: seq<string>, blocks: seq<seq<string>>, i: nat)
    requires i < |blocks|
    ensures Concat(header + Flatten(blocks[..i + 1])) == Concat(header + Flatten(blocks[..i])) + Concat(blocks[i])
  {
    FlattenSnoc(blocks, i);
    assert header + Flatten(blocks[..i + 1]) == (header + Flatten(blocks[..i])) + blocks[i];
    ConcatAppend(header + Flatten(blocks[..i]), blocks[i]);
  }

  lemma {:induction false} ConcatAppend(xs: seq<string>, ys: seq<string>)
    ensures Concat(xs + ys) == Concat(xs) + Concat(ys)
    decreases |ys|
  {
    if ys == [] {
      assert xs + ys == xs;
    } else {
      var zs := xs + ys;
      assert zs[..|zs| - 1] == xs + ys[..|ys| - 1];
      ConcatAppend(xs, ys[..|ys| - 1]);
    }
  }

  /** Four lines make the text of the first, then the second, the third
      and the fourth. */
  lemma ConcatFour(a: string, b: string, c: string, d: string)
    ensures Concat([a, b, c, d]) == a + b + c + d
  {
    ConcatSnoc([], a);
    assert [] + [a] == [a] && "" + a == a;
    ConcatSnoc([a], b);
    assert [a] + [b] == [a, b];
    ConcatSnoc([a, b], c);
    assert [a, b] + [c] == [a, b, c];
    ConcatSnoc([a, b, c], d);
    assert [a, b, c] + [d] == [a, b, c, d];
  }

  /** Five lines make the text of each in turn. */
  lemma ConcatFive(a: string, b: string, c: string, d: string, e: string)
    ensures Concat([a, b, c, d, e]) == a + b + c + d + e
  {
    ConcatFour(a, b, c, d);
    ConcatSnoc([a, b, c, d], e);
    assert [a, b, c, d] + [e] == [a, b, c, d, e];
  }

  /** The text of a block: its number line, train line and platform line,
      the notes line when there are notes, and a blank line. */
  lemma BlockText(index: nat, c: Checkin, shown: string, when: string)
    ensures Concat(BlockLines(index, c, shown, when)) ==
      NumberLine(index, when) + TrainLine(shown) + PlatformLine(c.platform)
      + (if c.notes != "" then NotesLine(c.notes) else "") + BlankLine()
  {
    var n, t, p, b := NumberLine(index, when), TrainLine(shown), PlatformLine(c.platform), BlankLine();
    if c.notes != "" {
      assert BlockLines(index, c, shown, when) == [n, t, p, NotesLine(c.notes), b];
      ConcatFive(n, t, p, NotesLine(c.notes), b);
    } else {
      assert BlockLines(index, c, shown, when) == [n, t, p, b];
      ConcatFour(n, t, p, b);
      assert n + t + p + "" == n + t + p;
    }
  }

  /** The text one iteration of the report loop appends: block `index`
      for `checkin`, line by line. */
  method AppendBlock(index: nat, checkin: Checkin, trainNumber: string, date: string) returns (block: string)
    ensures block == Concat(BlockLines(index, checkin, trainNumber, date))
  {
    block := NumberLine(index, date);
    block := block + TrainLine(trainNumber);
    block := block + PlatformLine(checkin.platform);
    if checkin.notes != "" {
      block := block + NotesLine(checkin.notes);
    }
    block := block + BlankLine();
    BlockText(index, checkin, trainNumber, date);
  }

  /** The text the report starts with: its header lines in order. */
  method Header(today: string, n: nat) returns (text: string)
    ensures text == Concat(HeaderLines(today, n))
  {
    text := TitleLine();
    text := text + DateLine(today);
    text := text + CountLine(n);
    text := text + RuleLine();
    ConcatFour(TitleLine(), DateLine(today), CountLine(n), RuleLine());
  }

  /** `exportCheckinsToReadableText(trains, checkins)`, with today's date
      formatted as `today` and each timestamp formatted by `stamp`: the
      header, whose count is the number of checkins, then exactly one block
      per checkin in input order, block `i` numbered `[i]`. */
  method ExportCheckinsToReadableText(trains: seq<Train>, checkins: seq<Checkin>, today: string, stamp: int -> string)
    returns (text: string)
    ensures text == Concat(ReportLines(trains, checkins, today, stamp))
  {
    var trainMap := TrainIdMap(trains);
    text := Header(today, |checkins|);
    ghost var header := HeaderLines(today, |checkins|);
    ghost var blocks := Blocks(trainMap, checkins, stamp);
    assert blocks[..0] == [];
    assert header + [] == header;
    for i := 0 to |checkins|
      invariant text == Concat(header + Flatten(blocks[..i]))
    {
      var checkin := checkins[i];
      var trainNumber := TrainLabel(trainMap, checkin.trainId);
      var date := stamp(checkin.timestamp);
      var block := AppendBlock(i + 1, checkin, trainNumber, date);
      ReportStep(header, blocks, i);
      text := text + block;
    }
    assert blocks[..|checkins|] == blocks;
  }

  /** The number of lines that open with `ch`. */
  function CountOpening(lines: seq<string>, ch: char): nat {
    if lines == [] then 0
    else CountOpening(lines[..|lines| - 1], ch) + (if lines[|lines| - 1] != "" && lines[|lines| - 1][0] == ch then 1 else 0)
  }

  lemma {:induction false} CountOpeningAppend(xs: seq<string>, ys: seq<string>, ch: char)
    ensures CountOpening(xs + ys, ch) == CountOpening(xs, ch) + CountOpening(ys, ch)
    decreases |ys|
  {
    if ys == [] {
      assert xs + ys == xs;
    } else {
      var zs := xs + ys;
      assert zs[..|zs| - 1] == xs + ys[..|ys| - 1];
      CountOpeningAppend(xs, ys[..|ys| - 1], ch);
    }
  }

  lemma CountOpeningOne(x: string, ch: char)
    ensures CountOpening([x], ch) == if x != "" && x[0] == ch then 1 else 0
  {
    assert [x][..0] == [];
  }

  /** Exactly one line of a block opens with `[`: its number line. */
  lemma BlockOpensOnce(index: nat, c: Checkin, shown: string, when: string)
    ensures CountOpening(BlockLines(index, c, shown, when), '[') == 1
  {
    var a, b, p := NumberLine(index, when), TrainLine(shown), PlatformLine(c.platform);
    var notes := if c.notes != "" then [NotesLine(c.notes)] else [];
    assert BlockLines(index, c, shown, when) == [a] + [b] + [p] + notes + [BlankLine()];
    CountOpeningOne(a, '['); CountOpeningOne(b, '['); CountOpeningOne(p, '[');
    CountOpeningOne(BlankLine(), '[');
    CountOpeningAppend([a], [b], '[');
    CountOpeningAppend([a] + [b], [p], '[');
    CountOpeningAppend([a] + [b] + [p], notes, '[');
    CountOpeningAppend([a] + [b] + [p] + notes, [BlankLine()], '[');
    if c.notes != "" {
      CountOpeningOne(NotesLine(c.notes), '[');
    } else {
      assert notes == [];
    }
  }

  /** No header line opens with `[`. */
  lemma HeaderOpensNone(today: string, n: nat)
    ensures CountOpening(HeaderLines(today, n), '[') == 0
  {
    var t, d, c, r := TitleLine(), DateLine(today), CountLine(n), RuleLine();
    assert HeaderLines(today, n) == [t] + [d] + [c] + [r];
    CountOpeningOne(t, '['); CountOpeningOne(d, '['); CountOpeningOne(c, '['); CountOpeningOne(r, '[');
    CountOpeningAppend([t], [d], '[');
    CountOpeningAppend([t] + [d], [c], '[');
    CountOpeningAppend([t] + [d] + [c], [r], '[');
  }

  /** The blocks of the first `k` checkins hold `k` lines opening with `[`. */
  lemma {:induction false} BlocksOpen(trainMap: map<string, string>, checkins: seq<Checkin>, stamp: int -> string, k: nat)
    requires k <= |checkins|
    ensures CountOpening(Flatten(Blocks(trainMap, checkins, stamp)[..k]), '[') == k
  {
    var blocks := Blocks(trainMap, checkins, stamp);
    if k > 0 {
      BlocksOpen(trainMap, checkins, stamp, k - 1);
      FlattenSnoc(blocks, k - 1);
      CountOpeningAppend(Flatten(blocks[..k - 1]), blocks[k - 1], '[');
      var c := checkins[k - 1];
      BlockOpensOnce(k, c, TrainLabel(trainMap, c.trainId), stamp(c.timestamp));
    } else {
      assert blocks[..0] == [];
    }
  }

  /** The header's count line prints the number of checkins (which reads
      back through `NatToStringParses`), and that is the number of numbered
      blocks. */
  lemma ReportCountMatchesBlocks(trains: seq<Train>, checkins: seq<Checkin>, today: string, stamp: int -> string)
    ensures ReportLines(trains, checkins, today, stamp)[2] == CountLine(|checkins|)
    ensures CountOpening(ReportLines(trains, checkins, today, stamp), '[') == |checkins|
  {
    var header := HeaderLines(today, |checkins|);
    var blocks := Blocks(TrainIdMap(trains), checkins, stamp);
    BlocksOpen(TrainIdMap(trains), checkins, stamp, |checkins|);
    assert blocks[..|checkins|] == blocks;
    CountOpeningAppend(header, Flatten(blocks), '[');
    HeaderOpensNone(today, |checkins|);
    assert ReportLines(trains, checkins, today, stamp) == header + Flatten(blocks);
    PrefixIndex(header, Flatten(blocks), 2);
  }

  lemma PrefixIndex<T>(a: seq<T>, b: seq<T>, i: nat)
    requires i < |a|
    ensures (a + b)[i] == a[i]
  {
  }
}

/**
 `DynamoDBService`: the interview-session table. A record is keyed by its
 partition key `sessionId` and its sort key `createdAt`; the table is a
 sequence of records with distinct keys. `get_session` asks for the newest
 record of a session, `update_session` serialises an ordered dict of updates
 into a `SET #attrN = :valN, …` expression, and DynamoDB's reading of that
 expression is modelled by an evaluator, so that what the service sends can
 be checked against what the database does with it.
 */
module Dynamo {
  import opened Wrappers
  import opened Strings
  import opened Json

  /* ---------------------------------------------------------------------- */
  /* Sort-key order                                                         */
  /* ---------------------------------------------------------------------- */

  /**
   The order DynamoDB gives string sort keys: lexicographic by character. (It
   compares UTF-8 bytes, which orders strings the same way as code points.)
   */
  predicate Before(a: string, b: string)
    decreases |a|
  {
    if a == [] then b != []
    else if b == [] then false
    else if a[0] == b[0] then Before(a[1..], b[1..])
    else a[0] < b[0]
  }

  lemma {:induction false} BeforeIrreflexive(a: string)
    ensures !Before(a, a)
  {
    if a != [] {
      BeforeIrreflexive(a[1..]);
    }
  }

  lemma {:induction false} BeforeTransitive(a: string, b: string, c: string)
    requires Before(a, b) && Before(b, c)
    ensures Before(a, c)
    decreases |a|
  {
    if a != [] && a[0] == b[0] && b[0] == c[0] {
      BeforeTransitive(a[1..], b[1..], c[1..]);
    }
  }

  lemma {:induction false} BeforeTotal(a: string, b: string)
    ensures a == b || Before(a, b) || Before(b, a)
    decreases |a|
  {
    if a != [] && b != [] && a[0] == b[0] {
      BeforeTotal(a[1..], b[1..]);
      assert a == [a[0]] + a[1..];
      assert b == [b[0]] + b[1..];
    }
  }

  /* ---------------------------------------------------------------------- */
  /* Records and the table                                                  */
  /* ---------------------------------------------------------------------- */

  type Item = map<string, Value>

  /** A record: its key and its other attributes. */
  datatype Record = Record(sessionId: string, createdAt: string, attrs: Item)

  type Table = seq<Record>

  const KEY_ATTRIBUTES: set<string> := {"sessionId", "createdAt"}

  /** The item DynamoDB hands back for a record: its attributes with the key attributes. */
  function FullItem(r: Record): (item: Item)
    ensures "sessionId" in item && item["sessionId"] == Str(r.sessionId)
    ensures "createdAt" in item && item["createdAt"] == Str(r.createdAt)
    ensures forall k :: k in r.attrs && k !in KEY_ATTRIBUTES ==> k in item && item[k] == r.attrs[k]
    ensures forall k :: k in item ==> k in r.attrs || k in KEY_ATTRIBUTES
  {
    r.attrs["sessionId" := Str(r.sessionId)]["createdAt" := Str(r.createdAt)]
  }

  predicate SameKey(a: Record, b: Record) {
    a.sessionId == b.sessionId && a.createdAt == b.createdAt
  }

  /** No two records share a key: what the table's primary key guarantees. */
  predicate KeysUnique(table: Table) {
    forall i, j :: 0 <= i < j < |table| ==> !SameKey(table[i], table[j])
  }

  /** The position of the record with the given key, if there is one. */
  function FindRecord(table: Table, sessionId: string, createdAt: string): (r: Option<nat>)
    ensures r.Some? ==> r.value < |table| && table[r.value].sessionId == sessionId && table[r.value].createdAt == createdAt
    ensures r.None? ==> forall i :: 0 <= i < |table| ==> !(table[i].sessionId == sessionId && table[i].createdAt == createdAt)
  {
    if table == [] then None
    else if table[0].sessionId == sessionId && table[0].createdAt == createdAt then Some(0)
    else
      var rest := FindRecord(table[1..], sessionId, createdAt);
      assert forall i :: 1 <= i < |table| ==> table[i] == table[1..][i - 1];
      match rest
      case None => None
      case Some(i) => Some(i + 1)
  }

  /** `put_item`: the record replaces the one with its key, or is added. */
  function Put(table: Table, rec: Record): (t: Table)
    ensures rec in t
    ensures forall i :: 0 <= i < |t| && !SameKey(t[i], rec) ==> t[i] in table
    ensures forall r :: r in table && !SameKey(r, rec) ==> r in t
    ensures KeysUnique(table) ==> KeysUnique(t)
  {
    match FindRecord(table, rec.sessionId, rec.createdAt)
    case Some(i) =>
      var t := table[i := rec];
      assert t[i] == rec;
      assert forall j :: 0 <= j < |table| && j != i ==> t[j] == table[j];
      assert forall r :: r in table && !SameKey(r, rec) ==> r in t by {
        forall r | r in table && !SameKey(r, rec)
          ensures r in t
        {
          var j :| 0 <= j < |table| && table[j] == r;
          assert t[j] == r;
        }
      }
      t
    case None =>
      var t := table + [rec];
      assert t[|table|] == rec;
      t
  }

  /* ---------------------------------------------------------------------- */
  /* get_session                                                            */
  /* ---------------------------------------------------------------------- */

  /**
   The first item of a query on `sessionId` with `ScanIndexForward=False` and
   `Limit=1`: the session's record with the greatest `createdAt`.
   */
  function Latest(table: Table, sessionId: string): (r: Option<Record>)
    ensures r.None? <==> forall i :: 0 <= i < |table| ==> table[i].sessionId != sessionId
    ensures r.Some? ==> r.value in table && r.value.sessionId == sessionId
  {
    if table == [] then None
    else
      var rest := Latest(table[1..], sessionId);
      assert forall i :: 1 <= i < |table| ==> table[i] == table[1..][i - 1];
      if table[0].sessionId != sessionId then rest
      else if rest.None? || Before(rest.value.createdAt, table[0].createdAt) then Some(table[0])
      else rest
  }

  /** The record `get_session` picks is at least as new as every record of that session. */
  lemma {:induction false} LatestIsNewest(table: Table, sessionId: string)
    ensures Latest(table, sessionId).Some? ==>
      forall i :: 0 <= i < |table| && table[i].sessionId == sessionId ==>
        !Before(Latest(table, sessionId).value.createdAt, table[i].createdAt)
  {
    if table != [] {
      var tail := table[1..];
      LatestIsNewest(tail, sessionId);
      var rest := Latest(tail, sessionId);
      var r := Latest(table, sessionId);
      assert forall i :: 1 <= i < |table| ==> table[i] == tail[i - 1];
      if r.Some? {
        var best := r.value.createdAt;
        forall i | 0 <= i < |table| && table[i].sessionId == sessionId
          ensures !Before(best, table[i].createdAt)
        {
          var x := table[i].createdAt;
          if i == 0 {
            if best == x {
              BeforeIrreflexive(x);
            }
          } else if table[0].sessionId == sessionId && (rest.None? || Before(rest.value.createdAt, table[0].createdAt)) {
            // The head was chosen over the tail's newest record.
            assert best == table[0].createdAt;
            var older := rest.value.createdAt;
            assert !Before(older, x);
            BeforeTotal(older, x);
            if Before(best, x) {
              if x == older {
                BeforeTransitive(best, x, best);
              } else {
                BeforeTransitive(x, older, best);
                BeforeTransitive(best, x, best);
              }
              BeforeIrreflexive(best);
            }
          } else {
            assert r == rest;
          }
        }
      }
    }
  }

  /** With distinct keys, a record at least as new as every record of its session is the one `get_session` returns. */
  lemma LatestUnique(table: Table, sessionId: string, k: nat)
    requires KeysUnique(table)
    requires k < |table| && table[k].sessionId == sessionId
    requires forall i :: 0 <= i < |table| && table[i].sessionId == sessionId ==> !Before(table[k].createdAt, table[i].createdAt)
    ensures Latest(table, sessionId) == Some(table[k])
  {
    LatestIsNewest(table, sessionId);
    var r := Latest(table, sessionId).value;
    var j :| 0 <= j < |table| && table[j] == r;
    BeforeTotal(r.createdAt, table[k].createdAt);
    assert r.createdAt == table[k].createdAt;
    if j != k {
      assert SameKey(table[j], table[k]);
      assert false;
    }
  }

  /* ---------------------------------------------------------------------- */
  /* What boto3 can serialise                                               */
  /* ---------------------------------------------------------------------- */

  /**
   A value boto3's DynamoDB type serializer accepts: anything but a Python
   float, at any depth. Decimals and ints are numbers to DynamoDB.
   */
  predicate Serializable(v: Value)
    decreases v
  {
    match v
    case Float(_, _) => false
    case Arr(items) => forall i :: 0 <= i < |items| ==> Serializable(items[i])
    case Obj(fields) => forall i :: 0 <= i < |fields| ==> Serializable(fields[i].1)
    case _ => true
  }

  /** Every value of a dict is serializable. */
  predicate AllSerializable(fields: seq<(string, Value)>) {
    forall i :: 0 <= i < |fields| ==> Serializable(fields[i].1)
  }

  /** botocore's text for a ValidationException the service returns to `operation`. */
  function ClientError(operation: string, message: string): string {
    "An error occurred (ValidationException) when calling the " + operation + " operation: " + message
  }

  /** What the serializer raises on a float, before anything is sent. */
  const FLOAT_ERROR: string := "Float types are not supported. Use Decimal types instead."

  /**
   Every float replaced by the decimal with the same digits, as
   `json.loads(json.dumps(v), parse_float=Decimal)` does; the rest is kept.
   */
  function ToDecimals(v: Value): (r: Value)
    ensures Serializable(r)
    decreases v
  {
    match v
    case Float(d, e) => Decimal(d, e)
    case Arr(items) => Arr(seq(|items|, i requires 0 <= i < |items| => ToDecimals(items[i])))
    case Obj(fields) => Obj(seq(|fields|, i requires 0 <= i < |fields| => (fields[i].0, ToDecimals(fields[i].1))))
    case _ => v
  }

  /** A value with no float is left as it is: the conversion changes nothing the serializer accepts. */
  lemma {:induction false} ToDecimalsKeeps(v: Value)
    requires Serializable(v)
    ensures ToDecimals(v) == v
    decreases v
  {
    match v
    case Arr(items) =>
      forall i | 0 <= i < |items|
        ensures ToDecimals(items[i]) == items[i]
      {
        ToDecimalsKeeps(items[i]);
      }
      assert ToDecimals(v).items == items;
    case Obj(fields) =>
      forall i | 0 <= i < |fields|
        ensures ToDecimals(fields[i].1) == fields[i].1
      {
        ToDecimalsKeeps(fields[i].1);
      }
      assert ToDecimals(v).fields == fields;
    case _ =>
  }

  /** A dict without floats has none in any value a lookup returns. */
  lemma SerializableGetOr(fields: seq<(string, Value)>, key: string, default: Value)
    requires Serializable(Obj(fields)) && Serializable(default)
    ensures Serializable(GetOr(fields, key, default))
  {
    var r := Lookup(fields, key);
    if r.Some? {
      var i :| 0 <= i < |fields| && fields[i] == (key, r.value);
    }
  }

  /** The conversion keeps a dict's keys, in order, and converts each value. */
  lemma ToDecimalsFields(fields: seq<(string, Value)>)
    ensures var r := ToDecimals(Obj(fields));
      && r.Obj? && |r.fields| == |fields|
      && forall i :: 0 <= i < |fields| ==> r.fields[i] == (fields[i].0, ToDecimals(fields[i].1))
  {
  }

  /** A value DynamoDB accepts for a string key attribute. */
  predicate ValidKey(v: Value) {
    v.Str? && v.s != ""
  }

  /**
   `get_session`: the newest record of the session, or `None`. A key value that
   is not a non-empty string is refused by DynamoDB, and the service re-raises.
   */
  function GetSession(table: Table, sessionId: Value): (r: Result<Option<Item>>)
    ensures r.Ok? <==> ValidKey(sessionId)
    ensures r.Ok? && r.value.None? ==> forall i :: 0 <= i < |table| ==> table[i].sessionId != sessionId.s
    ensures r.Ok? && r.value.Some? ==> exists i :: 0 <= i < |table| && table[i].sessionId == sessionId.s && r.value.value == FullItem(table[i])
  {
    if !ValidKey(sessionId) then Err(ClientError("Query", "invalid key value"))
    else
      match Latest(table, sessionId.s)
      case None => Ok(None)
      case Some(rec) => Ok(Some(FullItem(rec)))
  }


  /* ---------------------------------------------------------------------- */
  /* create_session                                                         */
  /* ---------------------------------------------------------------------- */

  /** A dict as the map DynamoDB stores; a later key wins, as in a dict display. */
  function ToItem(fields: seq<(string, Value)>): (item: Item)
    ensures forall i :: 0 <= i < |fields| ==> fields[i].0 in item
  {
    if fields == [] then map[]
    else
      var n := |fields| - 1;
      var init := ToItem(fields[..n]);
      assert forall i :: 0 <= i < n ==> fields[..n][i] == fields[i];
      init[fields[n].0 := fields[n].1]
  }

  /** On a dict with distinct keys, the stored map holds each field's value. */
  lemma {:induction false} ToItemValues(fields: seq<(string, Value)>)
    requires DistinctKeys(fields)
    ensures forall i :: 0 <= i < |fields| ==> ToItem(fields)[fields[i].0] == fields[i].1
  {
    if fields != [] {
      var n := |fields| - 1;
      ToItemValues(fields[..n]);
      assert forall i :: 0 <= i < n ==> fields[..n][i] == fields[i];
    }
  }

  /** One field of a dict with distinct keys, as stored. */
  lemma ToItemAt(fields: seq<(string, Value)>, k: nat, key: string, value: Value)
    requires DistinctKeys(fields)
    requires k < |fields| && fields[k] == (key, value)
    ensures key in ToItem(fields) && ToItem(fields)[key] == value
  {
    ToItemValues(fields);
  }

  /** The fields a new session starts with empty. */
  const ARTIFACT_FIELDS: seq<string> := ["scrapedData", "analysisResults", "interviewerBrief", "intervieweePacket", "feedback"]

  /** The item `create_session` writes, as the ordered dict it returns. */
  function NewSession(sessionId: string, now: string, companyName: Value, companyUrl: Value, metadata: Value): seq<(string, Value)> {
    [ ("sessionId", Str(sessionId)),
      ("createdAt", Str(now)),
      ("updatedAt", Str(now)),
      ("status", Str("CREATED")),
      ("companyName", companyName),
      ("companyUrl", Or(companyUrl, Str(""))),
      ("scrapedData", Obj([])),
      ("parsedDocuments", Arr([])),
      ("analysisResults", Obj([])),
      ("interviewerBrief", Obj([])),
      ("intervieweePacket", Obj([])),
      ("feedback", Obj([])),
      ("metadata", Or(metadata, Obj([]))) ]
  }

  /** A new session is CREATED, keyed by its id and creation time, and was updated when it was created. */
  lemma NewSessionKeys(sessionId: string, now: string, companyName: Value, companyUrl: Value, metadata: Value)
    ensures var item := ToItem(NewSession(sessionId, now, companyName, companyUrl, metadata));
      && "sessionId" in item && item["sessionId"] == Str(sessionId)
      && "createdAt" in item && item["createdAt"] == Str(now)
      && "updatedAt" in item && item["updatedAt"] == Str(now)
      && "status" in item && item["status"] == Str("CREATED")
  {
    var fields := NewSession(sessionId, now, companyName, companyUrl, metadata);
    NewSessionDistinct(sessionId, now, companyName, companyUrl, metadata);
    ToItemAt(fields, 0, "sessionId", Str(sessionId));
    ToItemAt(fields, 1, "createdAt", Str(now));
    ToItemAt(fields, 2, "updatedAt", Str(now));
    ToItemAt(fields, 3, "status", Str("CREATED"));
  }

  /** A new session keeps the company name, the URL or "", and the metadata or `{}`. */
  lemma NewSessionInputs(sessionId: string, now: string, companyName: Value, companyUrl: Value, metadata: Value)
    ensures var item := ToItem(NewSession(sessionId, now, companyName, companyUrl, metadata));
      && "companyName" in item && item["companyName"] == companyName
      && "companyUrl" in item && item["companyUrl"] == (if Truthy(companyUrl) then companyUrl else Str(""))
      && "metadata" in item && item["metadata"] == (if Truthy(metadata) then metadata else Obj([]))
  {
    var fields := NewSession(sessionId, now, companyName, companyUrl, metadata);
    NewSessionDistinct(sessionId, now, companyName, companyUrl, metadata);
    ToItemAt(fields, 4, "companyName", companyName);
    ToItemAt(fields, 5, "companyUrl", Or(companyUrl, Str("")));
    ToItemAt(fields, 12, "metadata", Or(metadata, Obj([])));
  }

  /** A new session has no parsed documents and every artifact empty. */
  lemma NewSessionEmpty(sessionId: string, now: string, companyName: Value, companyUrl: Value, metadata: Value)
    ensures var item := ToItem(NewSession(sessionId, now, companyName, companyUrl, metadata));
      && "parsedDocuments" in item && item["parsedDocuments"] == Arr([])
      && forall k :: k in ARTIFACT_FIELDS ==> k in item && item[k] == Obj([])
  {
    var fields := NewSession(sessionId, now, companyName, companyUrl, metadata);
    NewSessionDistinct(sessionId, now, companyName, companyUrl, metadata);
    ToItemAt(fields, 6, "scrapedData", Obj([]));
    ToItemAt(fields, 7, "parsedDocuments", Arr([]));
    ToItemAt(fields, 8, "analysisResults", Obj([]));
    ToItemAt(fields, 9, "interviewerBrief", Obj([]));
    ToItemAt(fields, 10, "intervieweePacket", Obj([]));
    ToItemAt(fields, 11, "feedback", Obj([]));
  }

  /** The thirteen names of a new session's dict are distinct. */
  lemma NewSessionDistinct(sessionId: string, now: string, companyName: Value, companyUrl: Value, metadata: Value)
    ensures DistinctKeys(NewSession(sessionId, now, companyName, companyUrl, metadata))
  {
  }

  /**
   `create_session`: the table with the new item put, and the item as
   returned; `put_item` raises when the item holds a float.
   */
  function CreateSession(table: Table, sessionId: string, now: string, companyName: Value, companyUrl: Value, metadata: Value): (r: Result<(Table, seq<(string, Value)>)>)
    ensures r.Ok? <==> AllSerializable(NewSession(sessionId, now, companyName, companyUrl, metadata))
    ensures r.Err? ==> r.error == FLOAT_ERROR
    ensures r.Ok? ==> r.value.1 == NewSession(sessionId, now, companyName, companyUrl, metadata)
    ensures r.Ok? && KeysUnique(table) ==> KeysUnique(r.value.0)
    ensures r.Ok? ==> forall i :: 0 <= i < |table| && table[i].sessionId != sessionId ==> table[i] in r.value.0
  {
    var fields := NewSession(sessionId, now, companyName, companyUrl, metadata);
    if !AllSerializable(fields) then Err(FLOAT_ERROR)
    else Ok((Put(table, Record(sessionId, now, ToItem(fields) - KEY_ATTRIBUTES)), fields))
  }

  /** Read as a dict, the new item has the fresh id, status CREATED, the URL or "" and the metadata or `{}`. */
  lemma NewSessionLookups(sessionId: string, now: string, companyName: Value, companyUrl: Value, metadata: Value)
    ensures var fields := NewSession(sessionId, now, companyName, companyUrl, metadata);
      && Lookup(fields, "sessionId") == Some(Str(sessionId))
      && Lookup(fields, "status") == Some(Str("CREATED"))
      && Lookup(fields, "companyUrl") == Some(if Truthy(companyUrl) then companyUrl else Str(""))
      && Lookup(fields, "metadata") == Some(if Truthy(metadata) then metadata else Obj([]))
  {
    var fields := NewSession(sessionId, now, companyName, companyUrl, metadata);
    NewSessionDistinct(sessionId, now, companyName, companyUrl, metadata);
    LookupAt(fields, 3);
    LookupAt(fields, 5);
    LookupAt(fields, 12);
  }

  /** The new item is refused exactly when the name, the URL or the metadata as stored holds a float. */
  lemma NewSessionSerializable(sessionId: string, now: string, companyName: Value, companyUrl: Value, metadata: Value)
    ensures AllSerializable(NewSession(sessionId, now, companyName, companyUrl, metadata))
        <==> Serializable(companyName) && Serializable(Or(companyUrl, Str(""))) && Serializable(Or(metadata, Obj([])))
  {
    var f := NewSession(sessionId, now, companyName, companyUrl, metadata);
    assert f[4].1 == companyName && f[5].1 == Or(companyUrl, Str("")) && f[12].1 == Or(metadata, Obj([]));
  }

  /** A record put under a session id no record has yet is what `get_session` finds. */
  lemma PutFreshThenLatest(table: Table, rec: Record)
    requires KeysUnique(table)
    requires forall i :: 0 <= i < |table| ==> table[i].sessionId != rec.sessionId
    ensures Latest(Put(table, rec), rec.sessionId) == Some(rec)
  {
    var t := Put(table, rec);
    var k :| 0 <= k < |t| && t[k] == rec;
    forall i | 0 <= i < |t| && t[i].sessionId == rec.sessionId
      ensures !Before(t[k].createdAt, t[i].createdAt)
    {
      // Put keeps every other record from the table, none of which has this session id.
      assert SameKey(t[i], rec);
      BeforeIrreflexive(rec.createdAt);
    }
    LatestUnique(t, rec.sessionId, k);
  }

  /** An item stored without its key attributes and handed back with them is the item. */
  lemma StoredItem(item: Item, sessionId: string, createdAt: string)
    requires "sessionId" in item && item["sessionId"] == Str(sessionId)
    requires "createdAt" in item && item["createdAt"] == Str(createdAt)
    ensures FullItem(Record(sessionId, createdAt, item - KEY_ATTRIBUTES)) == item
  {
  }

  /** A session created under a fresh id is what `get_session` then returns. */
  lemma CreateThenGet(table: Table, sessionId: string, now: string, companyName: Value, companyUrl: Value, metadata: Value)
    requires KeysUnique(table)
    requires sessionId != ""
    requires forall i :: 0 <= i < |table| ==> table[i].sessionId != sessionId
    requires AllSerializable(NewSession(sessionId, now, companyName, companyUrl, metadata))
    ensures var r := CreateSession(table, sessionId, now, companyName, companyUrl, metadata);
      r.Ok? && GetSession(r.value.0, Str(sessionId)) == Ok(Some(ToItem(r.value.1)))
  {
    var fields := NewSession(sessionId, now, companyName, companyUrl, metadata);
    var item := ToItem(fields);
    NewSessionKeys(sessionId, now, companyName, companyUrl, metadata);
    var rec := Record(sessionId, now, item - KEY_ATTRIBUTES);
    PutFreshThenLatest(table, rec);
    StoredItem(item, sessionId, now);
  }

  /* ---------------------------------------------------------------------- */
  /* The update expression                                                  */
  /* ---------------------------------------------------------------------- */

  /** The entry an assignment to `updatedAt` leaves at one position of the dict. */
  function Stamp(field: (string, Value), now: string): (string, Value) {
    if field.0 == "updatedAt" then ("updatedAt", Str(now)) else field
  }

  /**
   `updates["updatedAt"] = now` on an ordered dict: an existing `updatedAt`
   entry takes the new value where it stands, otherwise the entry is appended.
   */
  function WithTimestamp(updates: seq<(string, Value)>, now: string): (r: seq<(string, Value)>)
    ensures |r| == if Lookup(updates, "updatedAt").Some? then |updates| else |updates| + 1
    ensures forall i :: 0 <= i < |updates| ==> r[i].0 == updates[i].0
    ensures forall i :: 0 <= i < |updates| && updates[i].0 != "updatedAt" ==> r[i] == updates[i]
    ensures forall i :: 0 <= i < |r| && r[i].0 == "updatedAt" ==> r[i].1 == Str(now)
    ensures |r| > |updates| ==> r[|updates|] == ("updatedAt", Str(now))
    ensures r != []
  {
    if Lookup(updates, "updatedAt").Some? then
      seq(|updates|, i requires 0 <= i < |updates| => Stamp(updates[i], now))
    else
      updates + [("updatedAt", Str(now))]
  }

  /** A lookup sees only the entries with its key; two dicts that agree on those agree on the lookup. */
  lemma {:induction false} LookupAgree(a: seq<(string, Value)>, b: seq<(string, Value)>, key: string)
    requires |a| <= |b|
    requires forall i :: 0 <= i < |a| ==> a[i].0 == b[i].0 && (a[i].0 == key ==> a[i] == b[i])
    requires forall i :: |a| <= i < |b| ==> b[i].0 != key
    ensures Lookup(a, key) == Lookup(b, key)
  {
    if a != [] && a[0].0 != key {
      assert forall i :: 1 <= i < |b| ==> b[1..][i - 1] == b[i];
      assert forall i :: 1 <= i < |a| ==> a[1..][i - 1] == a[i];
      LookupAgree(a[1..], b[1..], key);
    }
  }

  /**
   On a dict with distinct keys the assignment keeps the keys distinct, makes
   `updatedAt` the time of the call and changes no other key's value.
   */
  lemma WithTimestampLookup(updates: seq<(string, Value)>, now: string)
    requires DistinctKeys(updates)
    ensures DistinctKeys(WithTimestamp(updates, now))
    ensures Lookup(WithTimestamp(updates, now), "updatedAt") == Some(Str(now))
    ensures forall k :: k != "updatedAt" ==> Lookup(WithTimestamp(updates, now), k) == Lookup(updates, k)
  {
    var r := WithTimestamp(updates, now);
    forall k | k != "updatedAt"
      ensures Lookup(r, k) == Lookup(updates, k)
    {
      LookupAgree(updates, r, k);
    }
    var j :| 0 <= j < |r| && r[j].0 == "updatedAt";
    LookupAt(r, j);
  }

  /** `f"#attr{i}"`. */
  function AttrName(i: nat): string {
    "#attr" + NatToString(i)
  }

  /** `f":val{i}"`. */
  function ValName(i: nat): string {
    ":val" + NatToString(i)
  }

  /** `f"{attr_name} = {attr_value}"`. */
  function Part(i: nat): string {
    AttrName(i) + " = " + ValName(i)
  }

  lemma AttrNameInjective(i: nat, j: nat)
    requires AttrName(i) == AttrName(j)
    ensures i == j
  {
    assert NatToString(i) == AttrName(i)[5..];
    assert NatToString(j) == AttrName(j)[5..];
    NatToStringInjective(i, j);
  }

  lemma ValNameInjective(i: nat, j: nat)
    requires ValName(i) == ValName(j)
    ensures i == j
  {
    assert NatToString(i) == ValName(i)[4..];
    assert NatToString(j) == ValName(j)[4..];
    NatToStringInjective(i, j);
  }

  /**
   What `update_session` hands `update_item`: the expression and the two
   placeholder dicts, kept in insertion order.
   */
  datatype UpdatePlan = UpdatePlan(expression: string, names: seq<(string, string)>, values: seq<(string, Value)>)

  /** The loop over `enumerate(updates.items())` and the `"SET " + ", ".join(...)` after it. */
  function BuildUpdate(updates: seq<(string, Value)>): (plan: UpdatePlan)
    ensures |plan.names| == |updates| && |plan.values| == |updates|
    ensures DistinctKeys(plan.names) && DistinctKeys(plan.values)
    ensures forall i :: 0 <= i < |updates| ==> Lookup(plan.names, AttrName(i)) == Some(updates[i].0)
    ensures forall i :: 0 <= i < |updates| ==> Lookup(plan.values, ValName(i)) == Some(updates[i].1)
    ensures forall i :: 0 <= i < |updates| ==> plan.values[i].1 == updates[i].1
    ensures DistinctKeys(updates) ==> forall i, j :: 0 <= i < j < |plan.names| ==> plan.names[i].1 != plan.names[j].1
  {
    var names := NamePairs(updates);
    var values := ValuePairs(updates);
    PlaceholderLookups(updates, names, values);
    UpdatePlan("SET " + Join(Parts(|updates|), ", "), names, values)
  }

  /** `update_expr_parts` after the loop. */
  function Parts(n: nat): (parts: seq<string>)
    ensures |parts| == n && forall i :: 0 <= i < n ==> parts[i] == Part(i)
  {
    seq(n, i requires 0 <= i < n => Part(i))
  }

  /** `expr_attr_names` after the loop, in insertion order. */
  function NamePairs(updates: seq<(string, Value)>): (names: seq<(string, string)>)
    ensures |names| == |updates| && forall i :: 0 <= i < |updates| ==> names[i] == (AttrName(i), updates[i].0)
  {
    seq(|updates|, i requires 0 <= i < |updates| => (AttrName(i), updates[i].0))
  }

  /** `expr_attr_values` after the loop, in insertion order. */
  function ValuePairs(updates: seq<(string, Value)>): (values: seq<(string, Value)>)
    ensures |values| == |updates| && forall i :: 0 <= i < |updates| ==> values[i] == (ValName(i), updates[i].1)
  {
    seq(|updates|, i requires 0 <= i < |updates| => (ValName(i), updates[i].1))
  }

  /** The i-th placeholders are new at step i, so the dicts map each to the i-th update. */
  lemma PlaceholderLookups(updates: seq<(string, Value)>, names: seq<(string, string)>, values: seq<(string, Value)>)
    requires |names| == |updates| && |values| == |updates|
    requires forall i :: 0 <= i < |updates| ==> names[i] == (AttrName(i), updates[i].0)
    requires forall i :: 0 <= i < |updates| ==> values[i] == (ValName(i), updates[i].1)
    ensures DistinctKeys(names) && DistinctKeys(values)
    ensures forall i :: 0 <= i < |updates| ==> Lookup(names, AttrName(i)) == Some(updates[i].0)
    ensures forall i :: 0 <= i < |updates| ==> Lookup(values, ValName(i)) == Some(updates[i].1)
  {
    forall i, j | 0 <= i < j < |updates|
      ensures names[i].0 != names[j].0 && values[i].0 != values[j].0
    {
      if AttrName(i) == AttrName(j) {
        AttrNameInjective(i, j);
      }
      if ValName(i) == ValName(j) {
        ValNameInjective(i, j);
      }
    }
    forall i | 0 <= i < |updates|
      ensures Lookup(names, AttrName(i)) == Some(updates[i].0)
      ensures Lookup(values, ValName(i)) == Some(updates[i].1)
    {
      LookupAt(names, i);
      LookupAt(values, i);
    }
  }

  /* ---------------------------------------------------------------------- */
  /* How DynamoDB reads the expression                                      */
  /* ---------------------------------------------------------------------- */

  /** One `name = value` clause, resolved through the placeholder dicts. */
  function ResolveClause(clause: string, names: seq<(string, string)>, values: seq<(string, Value)>): Option<(string, Value)> {
    var tokens := Split(Strip(clause), ' ');
    if |tokens| == 3 && tokens[1] == "=" then
      match (Lookup(names, tokens[0]), Lookup(values, tokens[2]))
      case (Some(name), Some(value)) => Some((name, value))
      case _ => None
    else None
  }

  /** Every clause resolved in order; `None` as soon as one does not resolve. */
  function ResolveClauses(clauses: seq<string>, resolve: string -> Option<(string, Value)>): (r: Option<seq<(string, Value)>>)
    ensures r.Some? ==> |r.value| == |clauses|
  {
    if clauses == [] then Some([])
    else
      match resolve(clauses[0])
      case None => None
      case Some(a) =>
        match ResolveClauses(clauses[1..], resolve)
        case None => None
        case Some(rest) => Some([a] + rest)
  }

  /** The assignments a `SET` expression makes, in order; `None` where DynamoDB reports a syntax error. */
  function Evaluate(plan: UpdatePlan): Option<seq<(string, Value)>> {
    var e := plan.expression;
    if |e| < 4 || e[..4] != "SET " then None
    else ResolveClauses(Split(e[4..], ','), Resolver(plan))
  }

  /** Clause resolution through a plan's placeholder dicts. */
  function Resolver(plan: UpdatePlan): string -> Option<(string, Value)> {
    c => ResolveClause(c, plan.names, plan.values)
  }

  function Padded(parts: seq<string>): (r: seq<string>)
    ensures |r| == |parts|
    ensures forall i :: 0 <= i < |parts| ==> r[i] == " " + parts[i]
  {
    seq(|parts|, i requires 0 <= i < |parts| => " " + parts[i])
  }

  /** `", ".join(parts)` with one more leading space is the comma-join of the space-prefixed parts. */
  lemma {:induction false} JoinCommaSpace(parts: seq<string>)
    requires parts != []
    ensures " " + Join(parts, ", ") == Join(Padded(parts), ",")
  {
    if |parts| > 1 {
      JoinCommaSpace(parts[1..]);
      assert Padded(parts) == [" " + parts[0]] + Padded(parts[1..]);
      JoinCons(" " + parts[0], Padded(parts[1..]), ",");
    }
  }

  /** `", ".join(parts)` is the first part, a comma, and the comma-join of the others after a space. */
  lemma JoinCommaShape(parts: seq<string>)
    requires |parts| > 1
    ensures Join(parts, ", ") == parts[0] + [','] + Join(Padded(parts[1..]), ",")
  {
    var tail := parts[1..];
    JoinCommaSpace(tail);
    CommaSpace(parts[0], Join(tail, ", "));
  }

  lemma CommaSpace(a: string, b: string)
    ensures a + ", " + b == a + [','] + (" " + b)
  {
  }

  lemma PaddedKeeps(parts: seq<string>, c: char)
    requires c != ' '
    requires forall i :: 0 <= i < |parts| ==> c !in parts[i]
    ensures forall k :: 0 <= k < |Padded(parts)| ==> c !in Padded(parts)[k]
  {
    forall k | 0 <= k < |parts|
      ensures c !in Padded(parts)[k]
    {
      assert Padded(parts)[k] == " " + parts[k];
    }
  }

  /** Splitting `", ".join(parts)` on commas gives the first part and the others after a space. */
  lemma JoinCommaSplit(parts: seq<string>)
    requires parts != []
    requires forall i :: 0 <= i < |parts| ==> ',' !in parts[i]
    ensures Split(Join(parts, ", "), ',') == [parts[0]] + Padded(parts[1..])
  {
    SplitNoSeparator(parts[0], ',');
    if |parts| == 1 {
      assert Padded(parts[1..]) == [];
    } else {
      var tail := parts[1..];
      var padded := Padded(tail);
      var rest := Join(padded, [',']);
      JoinCommaShape(parts);
      assert Join(parts, ", ") == parts[0] + [','] + rest;
      PaddedKeeps(tail, ',');
      SplitJoin(padded, ',');
      assert Split(rest, ',') == padded;
      SplitAround(parts[0], ',', rest);
    }
  }

  lemma NoSpaceInName(i: nat)
    ensures ' ' !in AttrName(i) && ' ' !in ValName(i) && ',' !in AttrName(i) && ',' !in ValName(i)
  {
    var d := NatToString(i);
    assert forall k :: 0 <= k < |d| ==> IsDigit(d[k]);
  }

  /** Each clause tokenises into its name placeholder, `=`, and its value placeholder. */
  lemma PartTokens(i: nat)
    ensures Split(Part(i), ' ') == [AttrName(i), "=", ValName(i)]
    ensures ',' !in Part(i)
  {
    NoSpaceInName(i);
    assert Part(i) == AttrName(i) + [' '] + ("=" + [' '] + ValName(i));
    SplitAround(AttrName(i), ' ', "=" + [' '] + ValName(i));
    SplitAround("=", ' ', ValName(i));
    SplitNoSeparator(AttrName(i), ' ');
    SplitNoSeparator("=", ' ');
    SplitNoSeparator(ValName(i), ' ');
  }

  /** A clause, with or without the space the join puts before it, strips to itself. */
  lemma StripPart(i: nat)
    ensures Strip(Part(i)) == Part(i)
    ensures Strip(" " + Part(i)) == Part(i)
  {
    var p := Part(i);
    var d := NatToString(i);
    assert p[0] == '#';
    assert p[|p| - 1] == d[|d| - 1];
    assert IsDigit(d[|d| - 1]);
    StripUnpadded(p);
  }

  /** Text that neither starts nor ends with whitespace strips to itself, also after one leading space. */
  lemma StripUnpadded(p: string)
    requires p != [] && !IsSpace(p[0]) && !IsSpace(p[|p| - 1])
    ensures Strip(p) == p
    ensures Strip(" " + p) == p
  {
    assert TrimStart(p) == p;
    assert (" " + p)[1..] == p;
    assert TrimStart(" " + p) == TrimStart(p);
    assert TrimEnd(p) == p;
  }

  /** Clauses that each resolve to the matching update resolve to the updates. */
  lemma {:induction false} ResolveAll(clauses: seq<string>, resolve: string -> Option<(string, Value)>, updates: seq<(string, Value)>)
    requires |clauses| == |updates|
    requires forall i :: 0 <= i < |clauses| ==> resolve(clauses[i]) == Some(updates[i])
    ensures ResolveClauses(clauses, resolve) == Some(updates)
  {
    if clauses != [] {
      assert forall i :: 0 <= i < |clauses| - 1 ==> clauses[1..][i] == clauses[i + 1] && updates[1..][i] == updates[i + 1];
      ResolveAll(clauses[1..], resolve, updates[1..]);
      assert updates == [updates[0]] + updates[1..];
    }
  }

  /** The i-th clause, bare or after the join's space, resolves to the i-th update. */
  lemma ClauseResolves(i: nat, names: seq<(string, string)>, values: seq<(string, Value)>, update: (string, Value))
    requires Lookup(names, AttrName(i)) == Some(update.0)
    requires Lookup(values, ValName(i)) == Some(update.1)
    ensures ResolveClause(Part(i), names, values) == Some(update)
    ensures ResolveClause(" " + Part(i), names, values) == Some(update)
  {
    StripPart(i);
    PartTokens(i);
  }

  /**
   Round trip: DynamoDB's reading of the expression `update_session` builds
   assigns exactly the given updates, in order.
   */
  lemma EvaluateBuild(updates: seq<(string, Value)>)
    requires updates != []
    ensures Evaluate(BuildUpdate(updates)) == Some(updates)
  {
    var plan := BuildUpdate(updates);
    PlanClauses(updates);
    var clauses := Split(plan.expression[4..], ',');
    forall i | 0 <= i < |updates|
      ensures Resolver(plan)(clauses[i]) == Some(updates[i])
    {
      ClauseResolves(i, plan.names, plan.values, updates[i]);
      if i == 0 {
        assert clauses[i] == Part(0);
      } else {
        assert clauses[i] == " " + Part(i);
      }
    }
    ResolveAll(clauses, Resolver(plan), updates);
    assert Evaluate(plan) == ResolveClauses(clauses, Resolver(plan));
  }

  /** The expression is `SET ` followed by one clause per update: the first bare, the others after a space. */
  lemma PlanClauses(updates: seq<(string, Value)>)
    requires updates != []
    ensures var e := BuildUpdate(updates).expression;
      && |e| >= 4 && e[..4] == "SET "
      && |Split(e[4..], ',')| == |updates|
      && Split(e[4..], ',')[0] == Part(0)
      && forall i :: 1 <= i < |updates| ==> Split(e[4..], ',')[i] == " " + Part(i)
  {
    var body := Join(Parts(|updates|), ", ");
    var e := BuildUpdate(updates).expression;
    assert e == "SET " + body;
    assert e[4..] == body;
    PartsClauses(|updates|);
  }

  /** Splitting the joined clauses on commas gives them back, each but the first after a space. */
  lemma PartsClauses(n: nat)
    requires n > 0
    ensures var clauses := Split(Join(Parts(n), ", "), ',');
      && |clauses| == n
      && clauses[0] == Part(0)
      && forall i :: 1 <= i < n ==> clauses[i] == " " + Part(i)
  {
    var parts := Parts(n);
    forall i | 0 <= i < n
      ensures ',' !in parts[i]
    {
      PartTokens(i);
    }
    JoinCommaSplit(parts);
    var clauses := Split(Join(parts, ", "), ',');
    forall i | 1 <= i < n
      ensures clauses[i] == " " + Part(i)
    {
      assert clauses[i] == Padded(parts[1..])[i - 1];
    }
  }

  /* ---------------------------------------------------------------------- */
  /* update_session and store_feedback                                      */
  /* ---------------------------------------------------------------------- */

  /** DynamoDB applies `SET` assignments left to right. */
  function ApplySets(item: Item, sets: seq<(string, Value)>): Item
    decreases |sets|
  {
    if sets == [] then item else ApplySets(item[sets[0].0 := sets[0].1], sets[1..])
  }

  /** Each assigned attribute holds its value; every other attribute is as it was. */
  lemma {:induction false} ApplySetsSpec(item: Item, sets: seq<(string, Value)>)
    requires DistinctKeys(sets)
    ensures forall i :: 0 <= i < |sets| ==> sets[i].0 in ApplySets(item, sets) && ApplySets(item, sets)[sets[i].0] == sets[i].1
    ensures forall k :: (forall i :: 0 <= i < |sets| ==> sets[i].0 != k) ==>
      (k in ApplySets(item, sets) <==> k in item) && (k in item ==> ApplySets(item, sets)[k] == item[k])
    decreases |sets|
  {
    if sets != [] {
      var tail := sets[1..];
      assert forall i :: 1 <= i < |sets| ==> sets[i] == tail[i - 1];
      ApplySetsSpec(item[sets[0].0 := sets[0].1], tail);
    }
  }

  /** The attributes the record with a key has before an update: none when there is no such record. */
  function Prior(table: Table, sessionId: string, createdAt: string): Item {
    var found := FindRecord(table, sessionId, createdAt);
    if found.Some? then table[found.value].attrs else map[]
  }

  /** The record `update_session` leaves behind for a key: what was there (or nothing), with the timestamped updates applied. */
  function Updated(table: Table, sessionId: string, createdAt: string, updates: seq<(string, Value)>, now: string): Record {
    Record(sessionId, createdAt, ApplySets(Prior(table, sessionId, createdAt), WithTimestamp(updates, now)))
  }

  /**
   `update_item` with `ReturnValues="ALL_NEW"`: boto3 refuses to serialise a
   float in the key or the values; DynamoDB then reads the expression,
   refuses an invalid key or an assignment to a key attribute, applies the
   assignments to the record with the key (creating it if absent) and returns
   the new item.
   */
  function UpdateItem(table: Table, sessionId: Value, createdAt: Value, plan: UpdatePlan): (r: Result<(Table, Item)>)
    ensures !AllSerializable(plan.values) ==> r == Err(FLOAT_ERROR)
    ensures r.Ok? ==> ValidKey(sessionId) && ValidKey(createdAt) && Evaluate(plan).Some? && AllSerializable(plan.values)
    ensures r.Ok? ==> forall i :: 0 <= i < |Evaluate(plan).value| ==> Evaluate(plan).value[i].0 !in KEY_ATTRIBUTES
    ensures r.Ok? && KeysUnique(table) ==> KeysUnique(r.value.0)
  {
    if !Serializable(sessionId) || !Serializable(createdAt) || !AllSerializable(plan.values) then Err(FLOAT_ERROR)
    else if !ValidKey(sessionId) || !ValidKey(createdAt) then Err(ClientError("UpdateItem", "invalid key value"))
    else
      match Evaluate(plan)
      case None => Err(ClientError("UpdateItem", "invalid UpdateExpression"))
      case Some(assignments) =>
        if exists i :: 0 <= i < |assignments| && assignments[i].0 in KEY_ATTRIBUTES then
          Err(ClientError("UpdateItem", "Cannot update attribute; this attribute is part of the key"))
        else
          var rec := Record(sessionId.s, createdAt.s, ApplySets(Prior(table, sessionId.s, createdAt.s), assignments));
          Ok((Put(table, rec), FullItem(rec)))
  }

  /** With valid keys and assignments that avoid the key attributes, `update_item` applies them. */
  lemma UpdateItemApplies(table: Table, sessionId: string, createdAt: string, plan: UpdatePlan, sets: seq<(string, Value)>)
    requires sessionId != "" && createdAt != ""
    requires AllSerializable(plan.values)
    requires Evaluate(plan) == Some(sets)
    requires forall i :: 0 <= i < |sets| ==> sets[i].0 !in KEY_ATTRIBUTES
    ensures var rec := Record(sessionId, createdAt, ApplySets(Prior(table, sessionId, createdAt), sets));
      UpdateItem(table, Str(sessionId), Str(createdAt), plan) == Ok((Put(table, rec), FullItem(rec)))
  {
    assert Serializable(Str(sessionId)) && Serializable(Str(createdAt));
    assert ValidKey(Str(sessionId)) && ValidKey(Str(createdAt));
    assert !exists i :: 0 <= i < |sets| && sets[i].0 in KEY_ATTRIBUTES;
  }

  /**
   `update_session`: `updatedAt` is set to the time of the call, the update
   expression is built from the dict, and `update_item` is called with it.
   */
  function UpdateSession(table: Table, sessionId: Value, createdAt: Value, updates: seq<(string, Value)>, now: string): (r: Result<(Table, Item)>)
    requires DistinctKeys(updates)
    ensures r.Ok? ==> ValidKey(sessionId) && ValidKey(createdAt)
    ensures r.Ok? ==> forall i :: 0 <= i < |updates| ==> updates[i].0 !in KEY_ATTRIBUTES
    ensures r.Ok? ==> forall i :: 0 <= i < |updates| && updates[i].0 != "updatedAt" ==> Serializable(updates[i].1)
    ensures r.Ok? && KeysUnique(table) ==> KeysUnique(r.value.0)
  {
    var sets := WithTimestamp(updates, now);
    EvaluateBuild(sets);
    var plan := BuildUpdate(sets);
    assert forall i :: 0 <= i < |updates| && updates[i].0 != "updatedAt" ==> plan.values[i].1 == updates[i].1;
    UpdateItem(table, sessionId, createdAt, plan)
  }

  /**
   An update whose values hold a float, anywhere but in an `updatedAt` the
   call replaces, is refused before anything is written.
   */
  lemma UpdateRefusesFloat(table: Table, sessionId: Value, createdAt: Value, updates: seq<(string, Value)>, now: string, k: nat)
    requires DistinctKeys(updates)
    requires k < |updates| && updates[k].0 != "updatedAt" && !Serializable(updates[k].1)
    ensures UpdateSession(table, sessionId, createdAt, updates, now) == Err(FLOAT_ERROR)
  {
    var sets := WithTimestamp(updates, now);
    var plan := BuildUpdate(sets);
    assert sets[k] == updates[k];
    assert plan.values[k].1 == updates[k].1;
  }

  /** With valid keys and no key attribute among the updates, `update_session` succeeds, puts the updated record and returns it as ALL_NEW. */
  lemma UpdateSessionSpec(table: Table, sessionId: string, createdAt: string, updates: seq<(string, Value)>, now: string)
    requires DistinctKeys(updates)
    requires sessionId != "" && createdAt != ""
    requires forall i :: 0 <= i < |updates| ==> updates[i].0 !in KEY_ATTRIBUTES
    requires AllSerializable(updates)
    ensures var r := UpdateSession(table, Str(sessionId), Str(createdAt), updates, now);
      var rec := Updated(table, sessionId, createdAt, updates, now);
      r == Ok((Put(table, rec), FullItem(rec)))
  {
    var sets := WithTimestamp(updates, now);
    EvaluateBuild(sets);
    UpdatedAtIsNoKey();
    TimestampAvoids(updates, now, KEY_ATTRIBUTES);
    TimestampSerializable(updates, now);
    UpdateItemApplies(table, sessionId, createdAt, BuildUpdate(sets), sets);
  }

  /** The timestamp is a string, so stamping keeps the updates serializable. */
  lemma TimestampSerializable(updates: seq<(string, Value)>, now: string)
    requires AllSerializable(updates)
    ensures AllSerializable(WithTimestamp(updates, now))
    ensures AllSerializable(BuildUpdate(WithTimestamp(updates, now)).values)
  {
    var sets := WithTimestamp(updates, now);
    forall i | 0 <= i < |sets|
      ensures Serializable(sets[i].1)
    {
      if i < |updates| && updates[i].0 != "updatedAt" {
        assert sets[i] == updates[i];
      }
    }
  }

  lemma UpdatedAtIsNoKey()
    ensures "updatedAt" !in KEY_ATTRIBUTES
  {
    assert "updatedAt"[0] != "sessionId"[0];
    assert "updatedAt"[0] != "createdAt"[0];
  }

  /** The assignment adds no key but `updatedAt`. */
  lemma TimestampAvoids(updates: seq<(string, Value)>, now: string, keys: set<string>)
    requires "updatedAt" !in keys
    requires forall i :: 0 <= i < |updates| ==> updates[i].0 !in keys
    ensures forall i :: 0 <= i < |WithTimestamp(updates, now)| ==> WithTimestamp(updates, now)[i].0 !in keys
  {
    var sets := WithTimestamp(updates, now);
    forall i | 0 <= i < |sets|
      ensures sets[i].0 !in keys
    {
      if i < |updates| {
        assert sets[i].0 == updates[i].0;
      } else {
        assert sets[i] == ("updatedAt", Str(now));
      }
    }
  }

  /** The updated record holds each update, and `updatedAt` is the time of the call even when the caller supplied one. */
  lemma UpdatedHoldsUpdates(table: Table, sessionId: string, createdAt: string, updates: seq<(string, Value)>, now: string)
    requires DistinctKeys(updates)
    ensures var attrs := Updated(table, sessionId, createdAt, updates, now).attrs;
      && "updatedAt" in attrs && attrs["updatedAt"] == Str(now)
      && forall i :: 0 <= i < |updates| && updates[i].0 != "updatedAt" ==> updates[i].0 in attrs && attrs[updates[i].0] == updates[i].1
  {
    var sets := WithTimestamp(updates, now);
    WithTimestampLookup(updates, now);
    ApplySetsSpec(Prior(table, sessionId, createdAt), sets);
    var k :| 0 <= k < |sets| && sets[k].0 == "updatedAt";
    assert sets[k] == ("updatedAt", Str(now));
  }

  /** Attributes the updates do not name keep the value the record had (a record that did not exist had none). */
  lemma UpdateKeepsOthers(table: Table, sessionId: string, createdAt: string, updates: seq<(string, Value)>, now: string, key: string)
    requires DistinctKeys(updates)
    requires key != "updatedAt"
    requires forall i :: 0 <= i < |updates| ==> updates[i].0 != key
    ensures var prior := Prior(table, sessionId, createdAt);
      var rec := Updated(table, sessionId, createdAt, updates, now);
      (key in rec.attrs <==> key in prior) && (key in prior ==> rec.attrs[key] == prior[key])
  {
    WithTimestampLookup(updates, now);
    TimestampAvoids(updates, now, {key});
    ApplySetsSpec(Prior(table, sessionId, createdAt), WithTimestamp(updates, now));
  }

  /** An update to the newest record of a session is what `get_session` then returns. */
  lemma UpdateThenGet(table: Table, sessionId: string, updates: seq<(string, Value)>, now: string)
    requires KeysUnique(table)
    requires DistinctKeys(updates)
    requires forall i :: 0 <= i < |updates| ==> updates[i].0 !in KEY_ATTRIBUTES
    requires AllSerializable(updates)
    requires sessionId != ""
    requires Latest(table, sessionId).Some? && Latest(table, sessionId).value.createdAt != ""
    ensures var createdAt := Latest(table, sessionId).value.createdAt;
      var r := UpdateSession(table, Str(sessionId), Str(createdAt), updates, now);
      r.Ok? && GetSession(r.value.0, Str(sessionId)) == Ok(Some(r.value.1))
  {
    var createdAt := Latest(table, sessionId).value.createdAt;
    UpdateSessionSpec(table, sessionId, createdAt, updates, now);
    LatestIsNewest(table, sessionId);
    var rec := Updated(table, sessionId, createdAt, updates, now);
    var t := Put(table, rec);
    var k :| 0 <= k < |t| && t[k] == rec;
    forall i | 0 <= i < |t| && t[i].sessionId == sessionId
      ensures !Before(t[k].createdAt, t[i].createdAt)
    {
      if SameKey(t[i], rec) {
        BeforeIrreflexive(createdAt);
      } else {
        assert t[i] in table;
      }
    }
    LatestUnique(t, sessionId, k);
  }

  /** `store_feedback`'s feedback dict. */
  function Feedback(corrections: Value, selectedQuestions: Value, notes: Value, submittedAt: string): Value {
    Obj([ ("corrections", corrections),
          ("selectedQuestions", selectedQuestions),
          ("notes", Or(notes, Str(""))),
          ("submittedAt", Str(submittedAt)) ])
  }

  /** The updates `store_feedback` hands to `update_session`. */
  function FeedbackUpdates(feedback: Value): (u: seq<(string, Value)>)
    ensures DistinctKeys(u)
  {
    [("feedback", feedback), ("status", Str("FEEDBACK_RECEIVED"))]
  }

  /**
   `store_feedback`: an unconditional update of `feedback` and `status`, which
   fails only on an invalid key or a float in the feedback.
   */
  function StoreFeedback(
    table: Table, sessionId: Value, createdAt: Value,
    corrections: Value, selectedQuestions: Value, notes: Value, submittedAt: string, now: string
  ): (r: Result<(Table, Item)>)
    ensures r.Ok? <==> ValidKey(sessionId) && ValidKey(createdAt) && Serializable(Feedback(corrections, selectedQuestions, notes, submittedAt))
  {
    var fb := Feedback(corrections, selectedQuestions, notes, submittedAt);
    var u := FeedbackUpdates(fb);
    if !Serializable(fb) then
      UpdateRefusesFloat(table, sessionId, createdAt, u, now, 0);
      UpdateSession(table, sessionId, createdAt, u, now)
    else if ValidKey(sessionId) && ValidKey(createdAt) then
      UpdateSessionSpec(table, sessionId.s, createdAt.s, u, now);
      UpdateSession(table, sessionId, createdAt, u, now)
    else
      UpdateSession(table, sessionId, createdAt, u, now)
  }

  /** The item `store_feedback` returns holds the feedback dict, the FEEDBACK_RECEIVED status and the time of the call. */
  lemma StoreFeedbackSpec(
    table: Table, sessionId: string, createdAt: string,
    corrections: Value, selectedQuestions: Value, notes: Value, submittedAt: string, now: string)
    requires sessionId != "" && createdAt != ""
    requires Serializable(Feedback(corrections, selectedQuestions, notes, submittedAt))
    ensures var r := StoreFeedback(table, Str(sessionId), Str(createdAt), corrections, selectedQuestions, notes, submittedAt, now);
      && r.Ok?
      && "feedback" in r.value.1 && r.value.1["feedback"] == Feedback(corrections, selectedQuestions, notes, submittedAt)
      && "status" in r.value.1 && r.value.1["status"] == Str("FEEDBACK_RECEIVED")
      && "updatedAt" in r.value.1 && r.value.1["updatedAt"] == Str(now)
  {
    var u := FeedbackUpdates(Feedback(corrections, selectedQuestions, notes, submittedAt));
    UpdateSessionSpec(table, sessionId, createdAt, u, now);
    UpdatedHoldsUpdates(table, sessionId, createdAt, u, now);
    UpdatedAtIsNoKey();
    var rec := Updated(table, sessionId, createdAt, u, now);
    assert u[0].0 == "feedback" && u[1].0 == "status";
    assert FullItem(rec)["feedback"] == rec.attrs["feedback"];
    assert FullItem(rec)["status"] == rec.attrs["status"];
    assert FullItem(rec)["updatedAt"] == rec.attrs["updatedAt"];
  }

  /** Nothing guards the write: a second feedback for the same record replaces the first. */
  lemma SecondFeedbackOverwrites(
    table: Table, sessionId: string, createdAt: string,
    c1: Value, q1: Value, n1: Value, at1: string, now1: string,
    c2: Value, q2: Value, n2: Value, at2: string, now2: string)
    requires sessionId != "" && createdAt != ""
    requires Serializable(Feedback(c1, q1, n1, at1)) && Serializable(Feedback(c2, q2, n2, at2))
    ensures var first := StoreFeedback(table, Str(sessionId), Str(createdAt), c1, q1, n1, at1, now1);
      first.Ok? &&
      var second := StoreFeedback(first.value.0, Str(sessionId), Str(createdAt), c2, q2, n2, at2, now2);
      second.Ok? && "feedback" in second.value.1 && second.value.1["feedback"] == Feedback(c2, q2, n2, at2)
  {
    var first := StoreFeedback(table, Str(sessionId), Str(createdAt), c1, q1, n1, at1, now1);
    StoreFeedbackSpec(first.value.0, sessionId, createdAt, c2, q2, n2, at2, now2);
  }
}

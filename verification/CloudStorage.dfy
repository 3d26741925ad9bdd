/** The blind backup store (cloud_service/app.py): uploads one after another,
    each read in chunks, inspected, moved into place and then indexed, with
    failures in between. The server never holds a key. */
module CloudStorage {
  import opened Results
  import opened Bytes
  import opened CanonicalJson
  import opened Gcm
  import opened Envelope
  import opened BackupContainer

  /** backups/<app>/<backup>.mnb, and the primary key of backup_objects. */
  datatype ObjectId = ObjectId(app: string, backup: string)

  datatype Row = Row(createdAt: string, size: nat)

  datatype Refusal = InvalidAppId | InvalidBackupId | AlreadyExists | TooLarge | NotAccepted | StorageFailed

  /** One PUT: the path as sent, str(UUID(app)) where that parses, the body in
      chunks, the limit in force, and what fails: the stream after so many
      chunks, the move into place, or the insert. */
  datatype Request = Request(
    app: Option<string>, backup: string, chunks: seq<bytes>, maxBytes: nat,
    breaksAfter: Option<nat>, moveFails: bool, insertFails: bool)

  predicate Digits(s: string) {
    forall i | 0 <= i < |s| :: '0' <= s[i] <= '9'
  }

  predicate HexDigits(s: string) {
    forall i | 0 <= i < |s| :: '0' <= s[i] <= '9' || 'a' <= s[i] <= 'f'
  }

  /** BACKUP_ID_RE. */
  predicate IsBackupId(s: string) {
    |s| == 25 && Digits(s[..8]) && s[8] == 'T' && Digits(s[9..15]) && s[15] == 'Z' && s[16] == '-' && HexDigits(s[17..])
  }

  predicate AllIn(s: string, alphabet: string) {
    forall i | 0 <= i < |s| :: s[i] in alphabet
  }

  /** What the client's _new_backup_id puts together: a date, a time and eight hex
      digits of a UUID. */
  ghost predicate IsNewId(s: string, date: string, time: string, hex: string) {
    && s == date + "T" + time + "Z-" + hex && |date| == 8 && |time| == 6 && |hex| == 8
    && AllIn(date, "0123456789") && AllIn(time, "0123456789") && AllIn(hex, "0123456789abcdef")
  }

  lemma HexExactly(c: char)
    ensures c in "0123456789abcdef" <==> '0' <= c <= '9' || 'a' <= c <= 'f'
    ensures c in "0123456789" <==> '0' <= c <= '9'
  {
    if '0' <= c <= '9' {
      assert "0123456789"[c as int - 48] == c;
      assert "0123456789abcdef"[c as int - 48] == c;
    }
    if 'a' <= c <= 'f' { assert "0123456789abcdef"[c as int - 97 + 10] == c; }
  }

  lemma AlphabetsAgree(s: string)
    ensures AllIn(s, "0123456789") <==> Digits(s)
    ensures AllIn(s, "0123456789abcdef") <==> HexDigits(s)
  {
    forall i | 0 <= i < |s|
      ensures s[i] in "0123456789abcdef" <==> '0' <= s[i] <= '9' || 'a' <= s[i] <= 'f'
      ensures s[i] in "0123456789" <==> '0' <= s[i] <= '9'
    {
      HexExactly(s[i]);
    }
  }

  /** The server takes exactly the ids the client makes. */
  lemma BackupIdsExactly(s: string)
    ensures IsBackupId(s) <==> exists date, time, hex :: IsNewId(s, date, time, hex)
  {
    hide AllIn, Digits, HexDigits;
    if IsBackupId(s) {
      AlphabetsAgree(s[..8]);
      AlphabetsAgree(s[9..15]);
      AlphabetsAgree(s[17..]);
      assert s == s[..8] + "T" + s[9..15] + "Z-" + s[17..];
      assert IsNewId(s, s[..8], s[9..15], s[17..]);
    }
    if date, time, hex :| IsNewId(s, date, time, hex) {
      AlphabetsAgree(date);
      AlphabetsAgree(time);
      AlphabetsAgree(hex);
      assert s[..8] == date && s[9..15] == time && s[17..] == hex;
    }
  }

  function Body(chunks: seq<bytes>): bytes {
    if chunks == [] then [] else chunks[0] + Body(chunks[1..])
  }

  /** How many bytes the chunks hold. */
  function Size(chunks: seq<bytes>): nat {
    if chunks == [] then 0 else |chunks[0]| + Size(chunks[1..])
  }

  datatype Store = Store(objects: map<ObjectId, bytes>, rows: map<ObjectId, Row>)

  /** What upload_backup reads of the body: all of it, or a failure. */
  function ReadBody(q: Request): Result<bytes, Refusal> {
    var arriving := match q.breaksAfter case None => q.chunks case Some(n) => q.chunks[..Shorter(n, |q.chunks|)];
    if Size(arriving) > q.maxBytes then Err(TooLarge)
    else if q.breaksAfter.Some? then Err(StorageFailed)
    else Ok(Body(q.chunks))
  }

  function Shorter(a: nat, b: nat): nat {
    if a <= b then a else b
  }

  function Upload(s: Store, q: Request): (Store, Result<nat, Refusal>) {
    if q.app.None? then (s, Err(InvalidAppId))
    else if !IsBackupId(q.backup) then (s, Err(InvalidBackupId))
    else
      var id := ObjectId(q.app.value, q.backup);
      if id in s.objects then (s, Err(AlreadyExists))
      else match ReadBody(q)
        case Err(e) => (s, Err(e))
        case Ok(body) =>
          match Inspect(body, id.app, id.backup)
          case Rejected => (s, Err(NotAccepted))
          case Accepted(t) =>
            if q.moveFails then (s, Err(StorageFailed))
            else
              var moved := s.(objects := s.objects[id := body]);
              if q.insertFails || id in s.rows then (moved, Err(StorageFailed))
              else (moved.(rows := s.rows[id := Row(t, |body|)]), Ok(|body|))
  }

  lemma {:induction false} BodySize(chunks: seq<bytes>)
    ensures |Body(chunks)| == Size(chunks)
  {
    if chunks != [] { BodySize(chunks[1..]); }
  }

  lemma {:induction false} Snoc(chunks: seq<bytes>, n: nat)
    requires n < |chunks|
    ensures Body(chunks[..n + 1]) == Body(chunks[..n]) + chunks[n]
            && Size(chunks[..n + 1]) == Size(chunks[..n]) + |chunks[n]|
    decreases n
  {
    if n == 0 {
      assert chunks[..1][1..] == [] && chunks[..0] == [];
    } else {
      assert chunks[..n + 1][1..] == chunks[1..][..n] && chunks[..n][1..] == chunks[1..][..n - 1];
      Snoc(chunks[1..], n - 1);
    }
  }

  lemma {:induction false} SizeGrows(chunks: seq<bytes>, m: nat, n: nat)
    requires m <= n <= |chunks|
    ensures Size(chunks[..m]) <= Size(chunks[..n])
    decreases n
  {
    if m < n {
      Snoc(chunks, n - 1);
      SizeGrows(chunks, m, n - 1);
    }
  }

  class Server {
    var objects: map<ObjectId, bytes>
    var rows: map<ObjectId, Row>

    constructor ()
      ensures State() == Store(map[], map[])
    {
      objects, rows := map[], map[];
    }

    function State(): Store
      reads this
    {
      Store(objects, rows)
    }

    /** The streaming loop: stops at the first chunk that exceeds the limit. */
    static method Receive(q: Request) returns (r: Result<bytes, Refusal>)
      ensures r == ReadBody(q)
    {
      var body: bytes := [];
      var written: nat := 0;
      var i := 0;
      var last := match q.breaksAfter case None => |q.chunks| case Some(n) => Shorter(n, |q.chunks|);
      assert q.chunks[..|q.chunks|] == q.chunks;
      while i < last
        invariant i <= last <= |q.chunks|
        invariant body == Body(q.chunks[..i]) && written == Size(q.chunks[..i]) <= q.maxBytes
      {
        Snoc(q.chunks, i);
        written := written + |q.chunks[i]|;
        if written > q.maxBytes {
          SizeGrows(q.chunks, i + 1, last);
          return Err(TooLarge);
        }
        body := body + q.chunks[i];
        i := i + 1;
      }
      if q.breaksAfter.Some? { return Err(StorageFailed); }
      return Ok(body);
    }

    /** upload_backup. */
    method Put(q: Request) returns (r: Result<nat, Refusal>)
      modifies this
      ensures (State(), r) == Upload(old(State()), q)
    {
      if q.app.None? { return Err(InvalidAppId); }
      if !IsBackupId(q.backup) { return Err(InvalidBackupId); }
      var id := ObjectId(q.app.value, q.backup);
      if id in objects { return Err(AlreadyExists); }
      var received := Receive(q);
      if received.Err? { return Err(received.error); }
      var header := Inspect(received.value, id.app, id.backup);
      if header.Rejected? { return Err(NotAccepted); }
      if q.moveFails { return Err(StorageFailed); }
      objects := objects[id := received.value];
      if q.insertFails || id in rows { return Err(StorageFailed); }
      rows := rows[id := Row(header.createdAt, |received.value|)];
      return Ok(|received.value|);
    }
  }

  // ----- over all uploads ---------------------------------------------------

  /** Every stored object passed inspection at its own path, and every index row
      names one, with its exact size and creation time. */
  ghost predicate Indexed(s: Store) {
    && (forall id | id in s.objects :: Inspect(s.objects[id], id.app, id.backup).Accepted?)
    && (forall id | id in s.rows :: id in s.objects && s.rows[id].size == |s.objects[id]|
          && Inspect(s.objects[id], id.app, id.backup) == Accepted(s.rows[id].createdAt))
  }

  function Uploads(s: Store, requests: seq<Request>): Store
    decreases |requests|
  {
    if requests == [] then s else Uploads(Upload(s, requests[0]).0, requests[1..])
  }

  /** An upload answered with a size stored exactly the body it was sent, new,
      within the limit, and indexed under the header's time; any other answer
      changes no row and no object that was there. */
  lemma UploadStoresTheBody(s: Store, q: Request)
    requires Indexed(s)
    ensures var (s', r) := Upload(s, q); Indexed(s') && s.objects.Keys <= s'.objects.Keys
    ensures var (s', r) := Upload(s, q);
            forall id | id in s.objects :: s'.objects[id] == s.objects[id] && (id in s.rows <==> id in s'.rows)
    ensures var (s', r) := Upload(s, q);
            r.Ok? ==> q.app.Some? && var id := ObjectId(q.app.value, q.backup);
              id !in s.objects && s'.objects == s.objects[id := Body(q.chunks)]
              && |Body(q.chunks)| == r.value <= q.maxBytes
              && id in s'.rows && s'.rows[id].size == r.value
    ensures Upload(s, q).1.Err? ==> Upload(s, q).0.rows == s.rows
    ensures var (s', r) := Upload(s, q); forall id | id in s.rows :: id in s'.rows && s'.rows[id] == s.rows[id]
  {
    hide Inspect, IsBackupId;
    BodySize(q.chunks);
  }

  /** What arrives of the body. */
  function Arriving(q: Request): seq<bytes> {
    match q.breaksAfter
    case None => q.chunks
    case Some(n) => if n <= |q.chunks| then q.chunks[..n] else q.chunks
  }

  /** Each answer and when it is given: the checks come in this order. */
  lemma UploadAnswersExactly(s: Store, q: Request)
    requires Indexed(s)
    ensures Upload(s, q).1 == Err(InvalidAppId) <==> q.app.None?
    ensures Upload(s, q).1 == Err(InvalidBackupId) <==> q.app.Some? && !IsBackupId(q.backup)
    ensures q.app.Some? && IsBackupId(q.backup) ==>
              var r, id := Upload(s, q).1, ObjectId(q.app.value, q.backup);
              && (r == Err(AlreadyExists) <==> id in s.objects)
              && (r == Err(TooLarge) <==> id !in s.objects && |Body(Arriving(q))| > q.maxBytes)
              && (r == Err(NotAccepted) <==>
                   && id !in s.objects && |Body(Arriving(q))| <= q.maxBytes && q.breaksAfter.None?
                   && Inspect(Body(q.chunks), id.app, id.backup).Rejected?)
              && (r == Ok(|Body(q.chunks)|) <==>
                   && id !in s.objects && |Body(q.chunks)| <= q.maxBytes && q.breaksAfter.None?
                   && Inspect(Body(q.chunks), id.app, id.backup).Accepted? && !q.moveFails && !q.insertFails)
    ensures Upload(s, q).1.Ok? ==> q.breaksAfter.None?
  {
    hide Inspect, IsBackupId;
    BodySize(Arriving(q));
    BodySize(q.chunks);
    if q.app.Some? && q.breaksAfter.Some? { assert q.chunks[..|q.chunks|] == q.chunks; }
    if q.app.Some? && ObjectId(q.app.value, q.backup) !in s.objects { NoRowYet(s, ObjectId(q.app.value, q.backup)); }
  }

  /** Whatever is uploaded later, a stored object never changes, its row neither,
      and the index stays exact. An object whose insert failed is never indexed:
      every retry finds that it exists. */
  lemma {:induction false} StoredStays(s: Store, requests: seq<Request>, id: ObjectId)
    requires Indexed(s) && id in s.objects
    ensures var t := Uploads(s, requests);
            && Indexed(t) && id in t.objects && t.objects[id] == s.objects[id]
            && (id in t.rows <==> id in s.rows) && (id in s.rows ==> t.rows[id] == s.rows[id])
    decreases |requests|
  {
    hide Upload, Indexed;
    if requests != [] {
      UploadStoresTheBody(s, requests[0]);
      StoredStays(Upload(s, requests[0]).0, requests[1..], id);
    }
  }

  ghost predicate CameFrom(q: Request, id: ObjectId, row: Row) {
    q.app == Some(id.app) && q.backup == id.backup && row.size == |Body(q.chunks)| <= q.maxBytes
  }

  /** From an empty store, every row is of one of the uploads, of exactly the
      size of its body and within the limit in force for it. */
  lemma {:induction false} RowsComeFromUploads(s: Store, requests: seq<Request>, id: ObjectId)
    requires Indexed(s) && id !in s.rows && id in Uploads(s, requests).rows
    ensures exists k :: 0 <= k < |requests| && CameFrom(requests[k], id, Uploads(s, requests).rows[id])
    decreases |requests|
  {
    hide Upload, Indexed;
    var q, rest := requests[0], requests[1..];
    var s' := Upload(s, q).0;
    UploadStoresTheBody(s, q);
    if id in s'.rows {
      NewRowIsOfThis(s, q, id);
      IndexedRow(s', id);
      StoredStays(s', rest, id);
      assert CameFrom(requests[0], id, Uploads(s, requests).rows[id]);
    } else {
      RowsComeFromUploads(s', rest, id);
      var k :| 0 <= k < |rest| && CameFrom(rest[k], id, Uploads(s', rest).rows[id]);
      assert CameFrom(requests[k + 1], id, Uploads(s, requests).rows[id]);
    }
  }

  lemma IndexedRow(s: Store, id: ObjectId)
    requires Indexed(s) && id in s.rows
    ensures id in s.objects
  {}

  lemma NewRowIsOfThis(s: Store, q: Request, id: ObjectId)
    requires id !in s.rows && id in Upload(s, q).0.rows
    ensures CameFrom(q, id, Upload(s, q).0.rows[id])
  {
    hide Inspect, IsBackupId;
    BodySize(q.chunks);
  }

  /** A backup the client wrote, uploaded under its own id in any chunks, within
      the limit and without a failure, is stored; and whatever is uploaded later,
      its download opens under the app key to the archive that was backed up. */
  lemma UploadedBackupOpens(g: Cipher, appKey: Key, d: BackupDraw, archive: bytes, s: Store, q: Request,
                            later: seq<Request>)
    requires Indexed(s) && q.app.Some? && IsBackupId(q.backup) && ObjectId(q.app.value, q.backup) !in s.objects
    requires Container(g, appKey, q.app.value, q.backup, d, archive) == Ok(Body(q.chunks)) && |d.createdAt| <= 64
    requires |Body(q.chunks)| <= q.maxBytes && q.breaksAfter.None? && !q.moveFails && !q.insertFails
    ensures var id := ObjectId(q.app.value, q.backup);
            var t := Uploads(Upload(s, q).0, later);
            && Upload(s, q).1 == Ok(|Body(q.chunks)|)
            && id in t.objects && t.rows.Keys >= {id} && t.rows[id] == Row(d.createdAt, |t.objects[id]|)
            && var o := OpenContainer(g, t.objects[id], id.app, appKey); o.Ok? && Plaintext(g, o.value) == Some(archive)
  {
    hide Inspect, IsBackupId, OpenContainer, Container, Plaintext, Indexed;
    var id := ObjectId(q.app.value, q.backup);
    BodySize(q.chunks);
    WrittenPassesInspection(g, appKey, id.app, id.backup, d, archive);
    ContainerRoundTrip(g, appKey, id.app, id.backup, d, archive);
    NoRowYet(s, id);
    UploadStoresTheBody(s, q);
    StoredStays(Upload(s, q).0, later, id);
  }

  lemma NoRowYet(s: Store, id: ObjectId)
    requires Indexed(s) && id !in s.objects
    ensures id !in s.rows
  {}

  // ----- objects that are never listed --------------------------------------

  /** This request stores the object and then fails to index it. */
  predicate LosesRow(q: Request, id: ObjectId) {
    && q.app == Some(id.app) && q.backup == id.backup && IsBackupId(id.backup)
    && ReadBody(q).Ok? && Inspect(ReadBody(q).value, id.app, id.backup).Accepted?
    && !q.moveFails && q.insertFails
  }

  predicate Unlisted(s: Store, id: ObjectId) {
    id in s.objects && id !in s.rows
  }

  /** An object that was not stored is stored without a row exactly by an upload
      with a valid id, an accepted body, a move that works and an insert that
      fails. */
  lemma UnlistedExactly(s: Store, q: Request, id: ObjectId)
    requires Indexed(s) && id !in s.objects
    ensures Unlisted(Upload(s, q).0, id) <==> LosesRow(q, id)
  {
    hide Inspect, IsBackupId;
  }

  /** Over any uploads: an object stays unlisted exactly when the first upload to
      store it lost its row, whatever is sent again later. */
  lemma {:induction false} UnlistedForGood(s: Store, requests: seq<Request>, id: ObjectId)
    requires Indexed(s) && id !in s.objects
    ensures Unlisted(Uploads(s, requests), id)
       <==> exists k :: 0 <= k < |requests| && id !in Uploads(s, requests[..k]).objects && LosesRow(requests[k], id)
    decreases |requests|
  {
    hide Upload, Indexed, LosesRow;
    if requests != [] {
      var q, rest := requests[0], requests[1..];
      var s' := Upload(s, q).0;
      UploadStoresTheBody(s, q);
      UnlistedExactly(s, q, id);
      assert requests[..0] == [];
      forall k | 0 <= k < |rest| ensures Uploads(s, requests[..k + 1]) == Uploads(s', rest[..k]) {
        assert requests[..k + 1][1..] == rest[..k];
      }
      if id in s'.objects {
        StoredStays(s', rest, id);
        forall k | 0 < k < |requests| ensures id in Uploads(s, requests[..k]).objects {
          assert requests[..k][1..] == rest[..k - 1];
          StoredStays(s', rest[..k - 1], id);
        }
      } else {
        UnlistedForGood(s', rest, id);
        assert !LosesRow(q, id);
        forall k | 0 <= k < |rest| && id !in Uploads(s', rest[..k]).objects && LosesRow(rest[k], id)
          ensures id !in Uploads(s, requests[..k + 1]).objects && LosesRow(requests[k + 1], id)
        {}
        forall k | 0 < k < |requests| && id !in Uploads(s, requests[..k]).objects && LosesRow(requests[k], id)
          ensures id !in Uploads(s', rest[..k - 1]).objects && LosesRow(rest[k - 1], id)
        {
          assert requests[..(k - 1) + 1] == requests[..k];
        }
      }
    }
  }

  const SAMPLE_APP: string := "00000000-0000-4000-8000-000000000000"
  const SAMPLE_BACKUP: string := "20240101T000000Z-00000000"

  /** The least header the server accepts. */
  function SampleHeader(): Fields {
    Field("format", Str(FORMAT_NAME),
    Field("algorithm", Str(ALGORITHM),
    Field("app_id", Str(SAMPLE_APP),
    Field("backup_id", Str(SAMPLE_BACKUP),
    Field("created_at", Str("2024-01-01T00:00:00+00:00"), NoFields)))))
  }

  lemma SampleHeaderFields()
    ensures var h := SampleHeader();
            && IsValue(Obj(h)) && StringsOnly(h) && Characters(h) <= 200 && Count(h) == 5
            && Lookup(h, "format") == Some(Str(FORMAT_NAME)) && Lookup(h, "algorithm") == Some(Str(ALGORITHM))
            && Lookup(h, "app_id") == Some(Str(SAMPLE_APP)) && Lookup(h, "backup_id") == Some(Str(SAMPLE_BACKUP))
            && Lookup(h, "created_at") == Some(Str("2024-01-01T00:00:00+00:00"))
  {
    assert |"format"| == |"app_id"| == 6 && "format"[0] != "app_id"[0];
    assert |"algorithm"| == |"backup_id"| == 9 && "algorithm"[0] != "backup_id"[0] && |"created_at"| == 10;
    var f1 := Field("created_at", Str("2024-01-01T00:00:00+00:00"), NoFields);
    var f2 := Field("backup_id", Str(SAMPLE_BACKUP), f1);
    var f3 := Field("app_id", Str(SAMPLE_APP), f2);
    var f4 := Field("algorithm", Str(ALGORITHM), f3);
    assert AreFieldValues(f1) && DistinctKeys(f1) && Characters(f1) == 35 && StringsOnly(f1) && Count(f1) == 1;
    assert AreFieldValues(f2) && DistinctKeys(f2) && Characters(f2) == 69 && StringsOnly(f2) && Count(f2) == 2;
    assert AreFieldValues(f3) && DistinctKeys(f3) && Characters(f3) == 111 && StringsOnly(f3) && Count(f3) == 3;
    assert AreFieldValues(f4) && DistinctKeys(f4) && Characters(f4) == 131 && StringsOnly(f4) && Count(f4) == 4;
  }

  lemma SampleIsAccepted() returns (body: bytes)
    ensures Inspect(body, SAMPLE_APP, SAMPLE_BACKUP).Accepted?
  {
    hide Print, Parse, Utf8Decode;
    var h := SampleHeader();
    SampleHeaderFields();
    PrintLength(h);
    ParseHeaderOfPrint(h);
    var header := PrintBytes(Obj(h));
    body := Prefix(header) + [];
    ReadHeaderOfPrefix(header, []);
    LookupCanon(h, "format"); LookupCanon(h, "algorithm"); LookupCanon(h, "app_id");
    LookupCanon(h, "backup_id"); LookupCanon(h, "created_at");
  }

  /** It happens: one upload to an empty store whose insert fails, and the object
      is there, unlisted, after whatever is uploaded next. */
  lemma UnlistedObject(later: seq<Request>) returns (q: Request)
    ensures Upload(Store(map[], map[]), q).1 == Err(StorageFailed)
    ensures Unlisted(Uploads(Store(map[], map[]), [q] + later), ObjectId(SAMPLE_APP, SAMPLE_BACKUP))
  {
    hide Inspect;
    var id := ObjectId(SAMPLE_APP, SAMPLE_BACKUP);
    var body := SampleIsAccepted();
    q := Request(Some(SAMPLE_APP), SAMPLE_BACKUP, [body], |body|, None, false, true);
    OneChunk(body);
    SampleIsBackupId();
    assert LosesRow(q, id);
    var all := [q] + later;
    assert all[0] == q && all[..0] == [];
    UnlistedForGood(Store(map[], map[]), all, id);
    assert id !in Uploads(Store(map[], map[]), all[..0]).objects && LosesRow(all[0], id);
  }

  lemma OneChunk(body: bytes)
    ensures Body([body]) == body && Size([body]) == |body|
  {
    var rest: seq<bytes> := [];
    assert [body][1..] == rest && body + [] == body;
  }

  lemma SampleIsBackupId()
    ensures IsBackupId(SAMPLE_BACKUP)
  {
    var s := SAMPLE_BACKUP;
    assert |s| == 25 && s[8] == 'T' && s[15] == 'Z' && s[16] == '-';
    assert s[0] == s[2] == '2' && s[1] == s[4] == s[6] == '0' && s[3] == '4' && s[5] == s[7] == '1';
    assert s[9] == s[10] == s[11] == s[12] == s[13] == s[14] == '0';
    assert s[17] == s[18] == s[19] == s[20] == s[21] == s[22] == s[23] == s[24] == '0';
  }
}

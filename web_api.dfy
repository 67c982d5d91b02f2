/**
 * The HTTP front door: the encoded upload name `<timestamp>_<uid>_<name>`,
 * the upload handler's validation and write, and the status lookup that
 * scans the three job directories by the uid field of each name.
 */
module WebApi {
  import opened Wrappers
  import opened PyStrings
  import opened Exceptions
  import opened JobStore

  const OK := 200
  const BAD_REQUEST := 400
  const NOT_FOUND := 404

  /** A `datetime.datetime` down to the second. */
  datatype DateTime = DateTime(year: nat, month: nat, day: nat, hour: nat, minute: nat, second: nat)

  /** The ranges a `datetime` keeps its fields in. */
  predicate ValidDateTime(t: DateTime) {
    1 <= t.year <= 9999 && 1 <= t.month <= 12 && 1 <= t.day <= 31
    && t.hour < 24 && t.minute < 60 && t.second < 60
  }

  predicate IsDigit(c: char) {
    '0' <= c <= '9'
  }

  /** The decimal digits of `n`, without padding. */
  function Decimal(n: nat): (r: string)
    ensures |r| >= 1 && StampChars(r) && forall i :: 0 <= i < |r| ==> IsDigit(r[i])
    ensures n < 10 ==> |r| == 1
    ensures 10 <= n < 100 ==> |r| == 2
    ensures 1000 <= n < 10000 ==> |r| == 4
  {
    if n < 10 then ["0123456789"[n]] else Decimal(n / 10) + ["0123456789"[n % 10]]
  }

  /** A two-digit field of `strftime`: zero-padded below ten. */
  function TwoDigits(n: nat): (r: string)
    ensures StampChars(r) && forall i :: 0 <= i < |r| ==> IsDigit(r[i])
    ensures n < 100 ==> |r| == 2
  {
    if n < 10 then "0" + Decimal(n) else Decimal(n)
  }

  /**
   * `t.strftime("%Y-%m-%d-%H-%M-%S")`. The year is written without padding,
   * which is what the C library does for years below 1000; for the years a
   * clock shows, the stamp is 19 characters wide. It never holds a `_`.
   */
  function Timestamp(t: DateTime): (r: string)
    ensures StampChars(r)
    ensures '_' !in r
    ensures ValidDateTime(t) && t.year >= 1000 ==> |r| == 19
  {
    Dashed(Dashed(Dashed(Dashed(Dashed(Decimal(t.year), TwoDigits(t.month)), TwoDigits(t.day)),
                         TwoDigits(t.hour)), TwoDigits(t.minute)), TwoDigits(t.second))
  }

  /** Every character is a digit or a `-`. */
  predicate StampChars(s: string) {
    forall i :: 0 <= i < |s| ==> IsDigit(s[i]) || s[i] == '-'
  }

  /** Two fields of a stamp joined by `-`. */
  function Dashed(a: string, b: string): (r: string)
    requires StampChars(a) && StampChars(b)
    ensures StampChars(r) && |r| == |a| + 1 + |b|
  {
    a + "-" + b
  }

  /** A 128-bit UUID as the integer `uuid.UUID.int`. */
  type Uuid = n: nat | n < 0x1_0000_0000_0000_0000_0000_0000_0000_0000

  predicate IsHexDigit(c: char) {
    '0' <= c <= '9' || 'a' <= c <= 'f'
  }

  /** `'%0*x' % (width, n)` for an `n` below `16^width`: lower-case hex, zero-padded. */
  function Hex(n: nat, width: nat): (r: string)
    ensures |r| == width && forall i :: 0 <= i < |r| ==> IsHexDigit(r[i])
  {
    if width == 0 then "" else Hex(n / 16, width - 1) + ["0123456789abcdef"[n % 16]]
  }

  /** `str(uid)`: 32 hex digits grouped 8-4-4-4-12; 36 characters, none of them `_`. */
  function UuidStr(u: Uuid): (r: string)
    ensures |r| == 36 && '_' !in r
  {
    var h := Hex(u, 32);
    h[..8] + "-" + h[8..12] + "-" + h[12..16] + "-" + h[16..20] + "-" + h[20..]
  }

  /** `PresenterWebAPI.gen_filename`, with the clock reading passed in. */
  function GenFilename(now: DateTime, uid: Uuid, fileName: string): string {
    Timestamp(now) + "_" + UuidStr(uid) + "_" + fileName
  }

  /**
   * Splitting a generated name on `_` gives back the timestamp and the uid as
   * its first two fields; the third is the original name up to its first `_`,
   * so it is the whole name exactly when the name has none.
   */
  lemma {:induction false} GenFilenameFields(now: DateTime, uid: Uuid, fileName: string)
    ensures var f := Split(GenFilename(now, uid, fileName), '_');
            |f| >= 3 && f[0] == Timestamp(now) && f[1] == UuidStr(uid) && f[2] == Split(fileName, '_')[0]
    ensures Split(GenFilename(now, uid, fileName), '_')[2] == fileName <==> '_' !in fileName
  {
    ThreeFields(Timestamp(now), UuidStr(uid), fileName);
  }

  lemma {:induction false} ThreeFields(a: string, b: string, c: string)
    requires '_' !in a && '_' !in b
    ensures var f := Split(a + "_" + b + "_" + c, '_');
            |f| >= 3 && f[0] == a && f[1] == b && f[2] == Split(c, '_')[0]
    ensures Split(a + "_" + b + "_" + c, '_')[2] == c <==> '_' !in c
  {
    SplitTwoFields(a, b, '_', c);
    FirstFieldIsWhole(c, '_');
  }

  /** The uploaded part of a multipart request. */
  datatype FileStorage = FileStorage(filename: string, data: seq<bv8>)

  /** An upload request: the part named `file`, if there is one. */
  datatype UploadRequest = UploadRequest(file: Option<FileStorage>)

  /** The status record the lookup returns as JSON. */
  datatype Metadata = Metadata(status: string, filename: Option<string>, timestamp: Option<string>,
                               explanation: Option<seq<string>>)

  datatype Body = ErrorBody(error: string) | UidBody(uid: string) | MetadataBody(metadata: Metadata)

  /** A handler's reply, or the exception that escaped it (which the framework answers with a server error). */
  datatype Response = Response(code: int, body: Body) | Raised(exception: Exception)

  /** The two validation branches of `upload_presentation`. */
  function ValidateUpload(req: UploadRequest): (r: Result<FileStorage, Response>)
    ensures req.file.None? ==> r == Failure(Response(BAD_REQUEST, ErrorBody("No file detected.")))
    ensures req.file.Some? && req.file.value.filename == "" ==>
              r == Failure(Response(BAD_REQUEST, ErrorBody("No file selected.")))
    ensures r.Success? <==> req.file.Some? && req.file.value.filename != ""
    ensures r.Success? ==> r.value == req.file.value
  {
    match req.file
    case None => Failure(Response(BAD_REQUEST, ErrorBody("No file detected.")))
    case Some(f) => if f.filename == "" then Failure(Response(BAD_REQUEST, ErrorBody("No file selected.")))
                    else Success(f)
  }

  /** `PresenterWebAPI.upload_presentation`, with the clock and the fresh uid passed in. */
  method UploadPresentation(dirs: JobDirectories, req: UploadRequest, now: DateTime, uid: Uuid)
    returns (resp: Response)
    modifies dirs`uploads
    ensures ValidateUpload(req).Failure? ==> resp == ValidateUpload(req).error && dirs.uploads == old(dirs.uploads)
    ensures ValidateUpload(req).Success? ==>
              var f := ValidateUpload(req).value;
              resp == Response(OK, UidBody(UuidStr(uid)))
              && dirs.uploads == old(dirs.uploads)[GenFilename(now, uid, f.filename) := Blob(f.data)]
  {
    var checked := ValidateUpload(req);
    if checked.Failure? {
      return checked.error;
    }
    var file := checked.value;
    var savedFileName := GenFilename(now, uid, file.filename);
    dirs.uploads := dirs.uploads[savedFileName := Blob(file.data)];
    resp := Response(OK, UidBody(UuidStr(uid)));
  }

  /** `name.split('_')[1]`, or nothing where that raises. */
  function SecondField(name: string): (r: Option<string>)
    ensures r.None? <==> '_' !in name
  {
    SplitHasSecondField(name, '_');
    var f := Split(name, '_');
    if |f| >= 2 then Some(f[1]) else None
  }

  /** `name` is in `listing` and no name listed before it carries `uid`. */
  predicate FirstMatch(listing: seq<string>, uid: string, name: string) {
    exists k :: 0 <= k < |listing| && listing[k] == name && forall j :: 0 <= j < k ==> SecondField(listing[j]) != Some(uid)
  }

  /**
   * `[n for n in listing if n.split('_')[1] == uid]`: the matching names in
   * listing order, or nothing when some name has no `_` (the IndexError).
   */
  function Matching(listing: seq<string>, uid: string): (r: Option<seq<string>>)
    ensures r.None? <==> exists k :: 0 <= k < |listing| && '_' !in listing[k]
    ensures r.Some? ==> forall n :: n in r.value <==> n in listing && SecondField(n) == Some(uid)
    ensures r.Some? && r.value != [] ==> FirstMatch(listing, uid, r.value[0])
  {
    if |listing| == 0 then Some([])
    else
      var head := SecondField(listing[0]);
      var rest := Matching(listing[1..], uid);
      assert forall k :: 0 < k < |listing| ==> listing[k] == listing[1..][k - 1];
      if head.None? then None
      else if rest.None? then None
      else if head.value == uid then Some([listing[0]] + rest.value)
      else
        assert rest.value != [] ==> FirstMatch(listing, uid, rest.value[0]) by {
          if rest.value != [] {
            var k :| 0 <= k < |listing[1..]| && listing[1..][k] == rest.value[0]
                     && forall j :: 0 <= j < k ==> SecondField(listing[1..][j]) != Some(uid);
            assert listing[k + 1] == rest.value[0];
            forall j | 0 <= j < k + 1 ensures SecondField(listing[j]) != Some(uid) {
              if j > 0 { assert listing[j] == listing[1..][j - 1]; }
            }
          }
        }
        rest
  }

  function NotFoundMetadata(): Metadata {
    Metadata("Not Found", None, None, None)
  }

  /** The Done branch: name and timestamp from the output's name, the summaries from its JSON. */
  function DoneReply(name: string, content: Content): Response {
    var f := Split(name, '_');
    if |f| < 3 then Raised(IndexError)
    else match LoadJson(content)
      case Failure(e) => Raised(e)
      case Success(items) =>
        Response(OK, MetadataBody(Metadata("Done", Some(BeforeLast(f[2], '.')), Some(f[0]), Some(items))))
  }

  /** The Pending and Error branches: name and timestamp from the file's name, no explanation. */
  function FoundReply(status: string, name: string): Response {
    var f := Split(name, '_');
    if |f| < 3 then Raised(IndexError)
    else Response(OK, MetadataBody(Metadata(status, Some(f[2]), Some(f[0]), None)))
  }

  /**
   * Specification of `get_status`: outputs first, then uploads, then errors,
   * then Not Found; `up`, `out` and `err` are the three directory listings.
   */
  function StatusOf(uid: string, up: seq<string>, out: seq<string>, err: seq<string>,
                    outputs: map<string, Content>): Response
    requires forall n :: n in out ==> n in outputs
  {
    if uid == "" then Response(BAD_REQUEST, ErrorBody("Did not get a UID."))
    else match (Matching(up, uid), Matching(out, uid), Matching(err, uid))
      case (Some(u), Some(o), Some(e)) =>
        if o != [] then DoneReply(o[0], outputs[o[0]])
        else if u != [] then FoundReply("Pending", u[0])
        else if e != [] then FoundReply("Error", e[0])
        else Response(NOT_FOUND, MetadataBody(NotFoundMetadata()))
      case _ => Raised(IndexError)
  }

  /** `PresenterWebAPI.get_status`, over listings of the three directories. */
  method GetStatus(dirs: JobDirectories, uidStr: string, up: seq<string>, out: seq<string>, err: seq<string>)
    returns (resp: Response)
    requires Lists(up, dirs.uploads) && Lists(out, dirs.outputs) && Lists(err, dirs.errors)
    ensures resp == StatusOf(uidStr, up, out, err, dirs.outputs)
  {
    if uidStr == "" {
      return Response(BAD_REQUEST, ErrorBody("Did not get a UID."));
    }
    var metadata := Metadata("Not Found", None, None, None);
    var uploads := Matching(up, uidStr);
    var outputs := Matching(out, uidStr);
    var errors := Matching(err, uidStr);
    if uploads.None? || outputs.None? || errors.None? {
      return Raised(IndexError);
    }
    if outputs.value != [] {
      metadata := metadata.(status := "Done");
      var split := Split(outputs.value[0], '_');
      if |split| < 3 {
        return Raised(IndexError);
      }
      metadata := metadata.(filename := Some(BeforeLast(split[2], '.')));
      metadata := metadata.(timestamp := Some(split[0]));
      var jsonFile := LoadJson(dirs.outputs[outputs.value[0]]);
      if jsonFile.Failure? {
        return Raised(jsonFile.error);
      }
      metadata := metadata.(explanation := Some(jsonFile.value));
    } else if uploads.value != [] {
      metadata := metadata.(status := "Pending");
      var split := Split(uploads.value[0], '_');
      if |split| < 3 {
        return Raised(IndexError);
      }
      metadata := metadata.(filename := Some(split[2]));
      metadata := metadata.(timestamp := Some(split[0]));
    } else if errors.value != [] {
      metadata := metadata.(status := "Error");
      var split := Split(errors.value[0], '_');
      if |split| < 3 {
        return Raised(IndexError);
      }
      metadata := metadata.(filename := Some(split[2]));
      metadata := metadata.(timestamp := Some(split[0]));
    } else {
      return Response(NOT_FOUND, MetadataBody(metadata));
    }
    return Response(OK, MetadataBody(metadata));
  }

  /** Some name in `listing` carries `uid` in its second field. */
  predicate HasMatch(listing: seq<string>, uid: string) {
    exists k :: 0 <= k < |listing| && SecondField(listing[k]) == Some(uid)
  }

  /** Every name in `listing` has a `_`, so its second field can be read. */
  predicate Splittable(listing: seq<string>) {
    forall k :: 0 <= k < |listing| ==> '_' in listing[k]
  }

  lemma {:induction false} MatchingNonEmpty(listing: seq<string>, uid: string)
    requires Splittable(listing)
    ensures Matching(listing, uid).Some?
    ensures Matching(listing, uid).value != [] <==> HasMatch(listing, uid)
  {
    var m := Matching(listing, uid).value;
    if HasMatch(listing, uid) {
      var k :| 0 <= k < |listing| && SecondField(listing[k]) == Some(uid);
      assert listing[k] in m;
    }
  }

  /**
   * The lookup's fixed precedence: a matching output gives Done, else a
   * matching upload gives Pending, else a matching error gives Error, and
   * otherwise the reply is 404 with every field but the status empty. A
   * branch that finds a name it cannot parse raises instead.
   */
  lemma {:induction false} StatusPrecedence(uid: string, up: seq<string>, out: seq<string>, err: seq<string>,
                         outputs: map<string, Content>)
    requires forall n :: n in out ==> n in outputs
    requires uid != "" && Splittable(up) && Splittable(out) && Splittable(err)
    ensures var r := StatusOf(uid, up, out, err, outputs);
            && (HasMatch(out, uid) ==> r.Raised? || (r.code == OK && r.body.MetadataBody? && r.body.metadata.status == "Done"))
            && (!HasMatch(out, uid) && HasMatch(up, uid) ==>
                  r == Raised(IndexError) || (r.code == OK && r.body.MetadataBody? && r.body.metadata.status == "Pending"))
            && (!HasMatch(out, uid) && !HasMatch(up, uid) && HasMatch(err, uid) ==>
                  r == Raised(IndexError) || (r.code == OK && r.body.MetadataBody? && r.body.metadata.status == "Error"))
            && (!HasMatch(out, uid) && !HasMatch(up, uid) && !HasMatch(err, uid) ==>
                  r == Response(NOT_FOUND, MetadataBody(Metadata("Not Found", None, None, None))))
  {
    MatchingNonEmpty(up, uid);
    MatchingNonEmpty(out, uid);
    MatchingNonEmpty(err, uid);
  }

  /** A name without `_` in any of the three listings makes the lookup raise IndexError. */
  lemma {:induction false} UnsplittableNameRaises(uid: string, up: seq<string>, out: seq<string>, err: seq<string>,
                               outputs: map<string, Content>)
    requires forall n :: n in out ==> n in outputs
    requires uid != "" && !(Splittable(up) && Splittable(out) && Splittable(err))
    ensures StatusOf(uid, up, out, err, outputs) == Raised(IndexError)
  {
  }

  /** An empty uid is refused with 400 before any directory is looked at. */
  lemma {:induction false} EmptyUidIsBadRequest(up: seq<string>, out: seq<string>, err: seq<string>, outputs: map<string, Content>)
    requires forall n :: n in out ==> n in outputs
    ensures StatusOf("", up, out, err, outputs) == Response(BAD_REQUEST, ErrorBody("Did not get a UID."))
  {
  }

  /** An explanation is reported only by the Done branch, and 404 only with status Not Found. */
  lemma {:induction false} ExplanationOnlyWhenDone(uid: string, up: seq<string>, out: seq<string>, err: seq<string>,
                                outputs: map<string, Content>)
    requires forall n :: n in out ==> n in outputs
    ensures var r := StatusOf(uid, up, out, err, outputs);
            r.Response? && r.body.MetadataBody? ==>
              (r.body.metadata.explanation.Some? ==> r.body.metadata.status == "Done" && r.code == OK)
              && (r.code == NOT_FOUND <==> r.body.metadata.status == "Not Found")
              && (r.body.metadata.status == "Not Found" ==> r.body.metadata == NotFoundMetadata())
  {
  }

  /**
   * Right after an upload, the lookup by the returned uid reports Pending with
   * the name's first `_`-field and the upload's timestamp, provided no other
   * file carries that uid and every listed name has a `_`.
   */
  lemma {:induction false} UploadedIsPending(now: DateTime, uid: Uuid, fileName: string,
                          up: seq<string>, out: seq<string>, err: seq<string>, outputs: map<string, Content>)
    requires forall n :: n in out ==> n in outputs
    requires Splittable(up) && Splittable(out) && Splittable(err)
    requires GenFilename(now, uid, fileName) in up
    requires forall n :: n in up && SecondField(n) == Some(UuidStr(uid)) ==> n == GenFilename(now, uid, fileName)
    requires !HasMatch(out, UuidStr(uid)) && !HasMatch(err, UuidStr(uid))
    ensures StatusOf(UuidStr(uid), up, out, err, outputs)
            == Response(OK, MetadataBody(Metadata("Pending", Some(Split(fileName, '_')[0]), Some(Timestamp(now)), None)))
    ensures '_' !in fileName ==>
              StatusOf(UuidStr(uid), up, out, err, outputs)
              == Response(OK, MetadataBody(Metadata("Pending", Some(fileName), Some(Timestamp(now)), None)))
  {
    var g := GenFilename(now, uid, fileName);
    GenFilenameFields(now, uid, fileName);
    StatusOfFirstUpload(UuidStr(uid), up, out, err, outputs, g);
  }

  /**
   * Once the worker has written `<generated name>.json`, the lookup reports
   * Done with the summaries as explanation; for a name without `_`, the
   * reported file name is the uploaded name itself (`a.pptx` for `a.pptx`).
   */
  lemma {:induction false} ProcessedIsDone(now: DateTime, uid: Uuid, fileName: string, items: seq<string>,
                        up: seq<string>, out: seq<string>, err: seq<string>, outputs: map<string, Content>)
    requires forall n :: n in out ==> n in outputs
    requires Splittable(up) && Splittable(out) && Splittable(err)
    requires GenFilename(now, uid, fileName) + ".json" in out
    requires outputs[GenFilename(now, uid, fileName) + ".json"] == Json(items)
    requires forall n :: n in out && SecondField(n) == Some(UuidStr(uid)) ==> n == GenFilename(now, uid, fileName) + ".json"
    ensures StatusOf(UuidStr(uid), up, out, err, outputs)
            == Response(OK, MetadataBody(Metadata("Done", Some(BeforeLast(Split(fileName + ".json", '_')[0], '.')),
                                                  Some(Timestamp(now)), Some(items))))
    ensures '_' !in fileName ==>
              StatusOf(UuidStr(uid), up, out, err, outputs)
              == Response(OK, MetadataBody(Metadata("Done", Some(fileName), Some(Timestamp(now)), Some(items))))
  {
    var g := GenFilename(now, uid, fileName) + ".json";
    GenFilenameJson(now, uid, fileName);
    GenFilenameFields(now, uid, fileName + ".json");
    StatusOfFirstOutput(UuidStr(uid), up, out, err, outputs, g);
    if '_' !in fileName {
      DoneNameOfPlainName(fileName);
    }
  }

  /** The only output carrying `uid` decides the lookup: its Done reply. */
  lemma {:induction false} StatusOfFirstOutput(uid: string, up: seq<string>, out: seq<string>, err: seq<string>,
                            outputs: map<string, Content>, g: string)
    requires forall n :: n in out ==> n in outputs
    requires uid != "" && Splittable(up) && Splittable(out) && Splittable(err)
    requires g in out && SecondField(g) == Some(uid)
    requires forall n :: n in out && SecondField(n) == Some(uid) ==> n == g
    ensures StatusOf(uid, up, out, err, outputs) == DoneReply(g, outputs[g])
  {
    MatchingNonEmpty(up, uid);
    MatchingNonEmpty(out, uid);
    MatchingNonEmpty(err, uid);
    var o := Matching(out, uid).value;
    assert g in o;
    assert o[0] in o;
  }

  /** With no output carrying `uid`, the only upload carrying it decides the lookup: its Pending reply. */
  lemma {:induction false} StatusOfFirstUpload(uid: string, up: seq<string>, out: seq<string>, err: seq<string>,
                            outputs: map<string, Content>, g: string)
    requires forall n :: n in out ==> n in outputs
    requires uid != "" && Splittable(up) && Splittable(out) && Splittable(err)
    requires g in up && SecondField(g) == Some(uid) && !HasMatch(out, uid)
    requires forall n :: n in up && SecondField(n) == Some(uid) ==> n == g
    ensures StatusOf(uid, up, out, err, outputs) == FoundReply("Pending", g)
  {
    MatchingNonEmpty(up, uid);
    MatchingNonEmpty(out, uid);
    MatchingNonEmpty(err, uid);
    var u := Matching(up, uid).value;
    assert g in u;
    assert u[0] in u;
  }

  /** For a name without `_`, cutting `.json` from the third field gives back the name. */
  lemma {:induction false} DoneNameOfPlainName(fileName: string)
    requires '_' !in fileName
    ensures BeforeLast(Split(fileName + ".json", '_')[0], '.') == fileName
  {
    assert fileName + ".json" == fileName + ['.'] + "json";
    FirstFieldStem(fileName, "json");
  }

  lemma {:induction false} FirstFieldStem(stem: string, ext: string)
    requires '_' !in stem && '_' !in ext && '.' !in ext
    ensures BeforeLast(Split(stem + ['.'] + ext, '_')[0], '.') == stem
  {
    var s := stem + ['.'] + ext;
    forall i | 0 <= i < |s| ensures s[i] != '_' {
      if i < |stem| {
        assert s[i] == stem[i];
      } else if i > |stem| {
        assert s[i] == ext[i - |stem| - 1];
      }
    }
    SplitWithout(s, '_');
    BeforeLastOfSuffix(stem, '.', ext);
  }

  /** Appending `.json` to a generated name is generating the name of the `.json` file. */
  lemma {:induction false} GenFilenameJson(now: DateTime, uid: Uuid, fileName: string)
    ensures GenFilename(now, uid, fileName) + ".json" == GenFilename(now, uid, fileName + ".json")
  {
    var front := Timestamp(now) + "_" + UuidStr(uid) + "_";
    assert GenFilename(now, uid, fileName) == front + fileName;
    assert GenFilename(now, uid, fileName + ".json") == front + (fileName + ".json");
  }
}

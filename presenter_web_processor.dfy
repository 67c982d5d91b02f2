/**
 * One pass of the worker's scan loop (`PresenterWebProcessor.__call__`):
 * every upload in the listing taken at the start of the pass is summarised
 * and either written to outputs as `<name>.json` and removed from uploads,
 * or, when the summary fails with an exception the handler catches, moved to
 * errors unchanged; any other exception ends the pass.
 */
module WebProcessor {
  import opened Wrappers
  import opened Exceptions
  import opened JobStore
  import opened PresentationHelper
  import opened AiPresenter

  /** The request timeout the worker passes to the summariser. */
  const ProcessorTimeout := 100

  /**
   * What summarising the upload with the given name, from its content and
   * under a timeout, yields. Each upload's summary is its own: two uploads
   * with the same bytes may fare differently.
   */
  type DeckSummariser = (string, Content, int) -> Result<seq<string>, Exception>

  /** Which exceptions the `except` clause handles. */
  type Handler = Exception -> bool

  /** The handler as written: `except Presenter.PresenterError`. */
  predicate CaughtBySource(e: Exception) {
    e.PresenterError?
  }

  /** A handler for every exception, as the error directory evidently intends. */
  predicate CatchAll(e: Exception) {
    true
  }

  /** The name of the output file for the upload `name`. */
  function JsonName(name: string): string {
    name + ".json"
  }

  lemma {:induction false} JsonNameInjective(a: string, b: string)
    ensures JsonName(a) == JsonName(b) <==> a == b
  {
    if JsonName(a) == JsonName(b) {
      assert a == JsonName(a)[..|a|];
      assert b == JsonName(b)[..|b|];
    }
  }

  /** `open(json_file_path, "w")` and the write of the encoded answer. */
  function WriteOutput(d: Dirs, name: string, answer: seq<string>): Dirs {
    d.(outputs := d.outputs[JsonName(name) := Json(answer)])
  }

  /** `os.remove(file_path)`. */
  function RemoveUpload(d: Dirs, name: string): Dirs {
    d.(uploads := d.uploads - {name})
  }

  /** `shutil.move(file_path, <errors>/file_name)`: same name, same content. */
  function MoveToErrors(d: Dirs, name: string): Dirs
    requires name in d.uploads
  {
    d.(uploads := d.uploads - {name}, errors := d.errors[name := d.uploads[name]])
  }

  /** The upload is still in uploads, or its output has been written. */
  predicate Present(d: Dirs, name: string) {
    name in d.uploads || JsonName(name) in d.outputs
  }

  /**
   * The output is written before the upload is removed, so at no step of a
   * successful file is it absent from both uploads and outputs, and it ends
   * in outputs only, holding the answer.
   */
  lemma {:induction false} NeverAbsentDuringSuccess(d: Dirs, name: string, answer: seq<string>)
    requires name in d.uploads
    ensures var w := WriteOutput(d, name, answer);
            var r := RemoveUpload(w, name);
            Present(d, name) && Present(w, name) && Present(r, name)
            && name !in r.uploads && r.outputs[JsonName(name)] == Json(answer)
  {
  }

  /**
   * The body of the `for` loop for one file: its new directories, or the
   * exception that escapes the handler. A file missing from uploads cannot
   * be opened as a deck.
   */
  function ProcessFile(d: Dirs, name: string, summarise: DeckSummariser, catches: Handler): Result<Dirs, Exception> {
    if name !in d.uploads then Failure(DeckError("Package not found"))
    else match summarise(name, d.uploads[name], ProcessorTimeout)
      case Success(answer) => Success(RemoveUpload(WriteOutput(d, name, answer), name))
      case Failure(e) => if catches(e) then Success(MoveToErrors(d, name)) else Failure(e)
  }

  /** The directories after a pass, and the exception that ended it early, if any. */
  datatype Pass = Pass(dirs: Dirs, crash: Option<Exception>)

  /** One iteration: nothing more happens once an exception has escaped. */
  function Step(p: Pass, name: string, summarise: DeckSummariser, catches: Handler): Pass {
    if p.crash.Some? then p
    else match ProcessFile(p.dirs, name, summarise, catches)
      case Success(d) => Pass(d, None)
      case Failure(e) => Pass(p.dirs, Some(e))
  }

  /** Specification of a pass over `listing`, in listing order. */
  function Scan(d: Dirs, listing: seq<string>, summarise: DeckSummariser, catches: Handler): Pass {
    if |listing| == 0 then Pass(d, None)
    else Step(Scan(d, listing[..|listing| - 1], summarise, catches), listing[|listing| - 1], summarise, catches)
  }

  /**
   * One pass of `PresenterWebProcessor.__call__` over the `os.listdir`
   * snapshot `listing`, with the source's handler.
   */
  method ScanOnce(dirs: JobDirectories, listing: seq<string>, summarise: DeckSummariser) returns (crash: Option<Exception>)
    modifies dirs
    ensures Pass(dirs.State(), crash) == Scan(old(dirs.State()), listing, summarise, CaughtBySource)
  {
    crash := None;
    for i := 0 to |listing|
      invariant Scan(old(dirs.State()), listing[..i], summarise, CaughtBySource) == Pass(dirs.State(), None)
    {
      assert listing[..i + 1][..i] == listing[..i];
      var fileName := listing[i];
      var jsonFileName := fileName + ".json";
      if fileName !in dirs.uploads {
        crash := Some(DeckError("Package not found"));
        ScanCrashSticks(old(dirs.State()), listing, i + 1, summarise, CaughtBySource);
        return;
      }
      var answer := summarise(fileName, dirs.uploads[fileName], ProcessorTimeout);
      if answer.Success? {
        dirs.outputs := dirs.outputs[jsonFileName := Json(answer.value)];
        dirs.uploads := dirs.uploads - {fileName};
      } else if answer.error.PresenterError? {
        dirs.errors := dirs.errors[fileName := dirs.uploads[fileName]];
        dirs.uploads := dirs.uploads - {fileName};
      } else {
        crash := Some(answer.error);
        ScanCrashSticks(old(dirs.State()), listing, i + 1, summarise, CaughtBySource);
        return;
      }
    }
    assert listing[..|listing|] == listing;
  }

  /** Once an exception has escaped, the rest of the listing changes nothing. */
  lemma {:induction false} ScanCrashSticks(d: Dirs, listing: seq<string>, i: nat, summarise: DeckSummariser, catches: Handler)
    requires i <= |listing|
    requires Scan(d, listing[..i], summarise, catches).crash.Some?
    ensures Scan(d, listing, summarise, catches) == Scan(d, listing[..i], summarise, catches)
  {
    if i < |listing| {
      assert listing[..|listing| - 1][..i] == listing[..i];
      ScanCrashSticks(d, listing[..|listing| - 1], i, summarise, catches);
    } else {
      assert listing[..i] == listing;
    }
  }

  /** `m1` and `m2` agree on the key `k`. */
  predicate Agree(m1: map<string, Content>, m2: map<string, Content>, k: string) {
    (k in m1 <==> k in m2) && (k in m1 ==> m1[k] == m2[k])
  }

  /** A usable `os.listdir` snapshot of uploads: every name once, each an upload. */
  predicate Snapshot(listing: seq<string>, uploads: map<string, Content>) {
    (forall i, j :: 0 <= i < j < |listing| ==> listing[i] != listing[j])
    && (forall i :: 0 <= i < |listing| ==> listing[i] in uploads)
  }

  /** In a snapshot, the last name is not among the earlier ones. */
  lemma {:induction false} LastIsNew(listing: seq<string>, uploads: map<string, Content>)
    requires |listing| > 0 && Snapshot(listing, uploads)
    ensures listing[|listing| - 1] !in listing[..|listing| - 1]
    ensures Snapshot(listing[..|listing| - 1], uploads)
  {
    var front := listing[..|listing| - 1];
    forall j | 0 <= j < |front| ensures front[j] != listing[|listing| - 1] {
      assert front[j] == listing[j];
    }
  }

  /** One iteration changes uploads and errors only at `name`, outputs only at `<name>.json`. */
  lemma {:induction false} StepFrame(p: Pass, name: string, summarise: DeckSummariser, catches: Handler)
    ensures var q := Step(p, name, summarise, catches);
            (forall n :: n != name ==> Agree(q.dirs.uploads, p.dirs.uploads, n) && Agree(q.dirs.errors, p.dirs.errors, n))
            && (forall k :: k != JsonName(name) ==> Agree(q.dirs.outputs, p.dirs.outputs, k))
  {
  }

  /**
   * The pass touches only the snapshot: uploads and errors are unchanged
   * outside the listed names, outputs outside their `.json` names.
   */
  lemma {:induction false} ScanFrame(d: Dirs, listing: seq<string>, summarise: DeckSummariser, catches: Handler)
    ensures var p := Scan(d, listing, summarise, catches);
            (forall n :: n !in listing ==> Agree(p.dirs.uploads, d.uploads, n) && Agree(p.dirs.errors, d.errors, n))
            && (forall k :: (forall n :: n in listing ==> k != JsonName(n)) ==> Agree(p.dirs.outputs, d.outputs, k))
  {
    if |listing| > 0 {
      var front, name := listing[..|listing| - 1], listing[|listing| - 1];
      ScanFrame(d, front, summarise, catches);
      var p0 := Scan(d, front, summarise, catches);
      StepFrame(p0, name, summarise, catches);
      var p := Scan(d, listing, summarise, catches);
      assert forall n :: n in front ==> n in listing;
      forall n | n !in listing ensures Agree(p.dirs.uploads, d.uploads, n) && Agree(p.dirs.errors, d.errors, n) {
        assert n != name && n !in front;
      }
      forall k | forall n :: n in listing ==> k != JsonName(n) ensures Agree(p.dirs.outputs, d.outputs, k) {
        assert k != JsonName(name);
        assert forall n :: n in front ==> k != JsonName(n);
        assert Agree(p0.dirs.outputs, d.outputs, k);
      }
    }
  }

  /**
   * A listed file has been dealt with: it has left uploads, and either its
   * summary succeeded and `<name>.json` holds the answer while errors keeps
   * whatever it had under that name, or its summary raised a handled
   * exception and errors holds the upload's content unchanged while outputs
   * keeps whatever it had under `<name>.json`.
   */
  predicate Settled(d0: Dirs, d: Dirs, name: string, summarise: DeckSummariser, catches: Handler)
    requires name in d0.uploads
  {
    name !in d.uploads
    && match summarise(name, d0.uploads[name], ProcessorTimeout)
       case Success(answer) =>
         JsonName(name) in d.outputs && d.outputs[JsonName(name)] == Json(answer) && Agree(d.errors, d0.errors, name)
       case Failure(e) =>
         catches(e) && name in d.errors && d.errors[name] == d0.uploads[name] && Agree(d.outputs, d0.outputs, JsonName(name))
  }

  /** Settledness depends only on the file's own entries. */
  lemma {:induction false} SettledKept(d0: Dirs, d: Dirs, e: Dirs, name: string, summarise: DeckSummariser, catches: Handler)
    requires name in d0.uploads && Settled(d0, d, name, summarise, catches)
    requires Agree(e.uploads, d.uploads, name) && Agree(e.errors, d.errors, name)
    requires Agree(e.outputs, d.outputs, JsonName(name))
    ensures Settled(d0, e, name, summarise, catches)
  {
  }

  /** A file still as it was uploaded is settled by an iteration that does not escape. */
  lemma {:induction false} StepSettlesIt(d0: Dirs, p: Pass, name: string, summarise: DeckSummariser, catches: Handler)
    requires name in d0.uploads && p.crash.None?
    requires Agree(p.dirs.uploads, d0.uploads, name) && Agree(p.dirs.errors, d0.errors, name)
    requires Agree(p.dirs.outputs, d0.outputs, JsonName(name))
    requires Step(p, name, summarise, catches).crash.None?
    ensures Settled(d0, Step(p, name, summarise, catches).dirs, name, summarise, catches)
  {
  }

  /** Processing the last file settles it and keeps every earlier file settled. */
  lemma {:induction false} StepSettles(d0: Dirs, listing: seq<string>, summarise: DeckSummariser, catches: Handler)
    requires |listing| > 0 && Snapshot(listing, d0.uploads)
    requires Scan(d0, listing[..|listing| - 1], summarise, catches).crash.None?
    requires forall j :: 0 <= j < |listing| - 1 ==>
               Settled(d0, Scan(d0, listing[..|listing| - 1], summarise, catches).dirs, listing[j], summarise, catches)
    requires Scan(d0, listing, summarise, catches).crash.None?
    ensures forall j :: 0 <= j < |listing| ==> Settled(d0, Scan(d0, listing, summarise, catches).dirs, listing[j], summarise, catches)
  {
    var front, name := listing[..|listing| - 1], listing[|listing| - 1];
    LastIsNew(listing, d0.uploads);
    ScanFrame(d0, front, summarise, catches);
    var p0 := Scan(d0, front, summarise, catches);
    StepFrame(p0, name, summarise, catches);
    var q := Scan(d0, listing, summarise, catches);
    assert q == Step(p0, name, summarise, catches);
    forall j | 0 <= j < |listing| ensures Settled(d0, q.dirs, listing[j], summarise, catches) {
      if j < |front| {
        assert front[j] == listing[j];
        var n := listing[j];
        assert n != name;
        JsonNameInjective(n, name);
        SettledKept(d0, p0.dirs, q.dirs, n, summarise, catches);
      } else {
        forall n | n in front ensures JsonName(name) != JsonName(n) {
          JsonNameInjective(name, n);
        }
        StepSettlesIt(d0, p0, name, summarise, catches);
      }
    }
  }

  /**
   * When the pass completes, every file of the snapshot has been settled:
   * its answer written to outputs, or the upload moved to errors, with the
   * other directory left as it was at the start of the pass.
   */
  lemma {:induction false} ScanSettlesSnapshot(d: Dirs, listing: seq<string>, summarise: DeckSummariser, catches: Handler)
    requires Snapshot(listing, d.uploads)
    ensures var p := Scan(d, listing, summarise, catches);
            p.crash.None? ==> forall j :: 0 <= j < |listing| ==> Settled(d, p.dirs, listing[j], summarise, catches)
  {
    if |listing| > 0 {
      var front := listing[..|listing| - 1];
      LastIsNew(listing, d.uploads);
      ScanSettlesSnapshot(d, front, summarise, catches);
      if Scan(d, front, summarise, catches).crash.None? && Scan(d, listing, summarise, catches).crash.None? {
        assert forall j :: 0 <= j < |front| ==> front[j] == listing[j];
        StepSettles(d, listing, summarise, catches);
      }
    }
  }

  /**
   * The pass `p` over `listing` ended in the summary of file `k`: the
   * summary raised the escaping exception, the files before `k` are settled,
   * and `k` and every later file are still in uploads, unchanged.
   */
  predicate CrashedAt(d: Dirs, listing: seq<string>, p: Pass, k: nat, summarise: DeckSummariser, catches: Handler)
    requires Snapshot(listing, d.uploads) && p.crash.Some? && k < |listing|
  {
    summarise(listing[k], d.uploads[listing[k]], ProcessorTimeout) == Failure(p.crash.value)
    && (forall j :: 0 <= j < k ==> Settled(d, p.dirs, listing[j], summarise, catches))
    && (forall j :: k <= j < |listing| ==> Agree(p.dirs.uploads, d.uploads, listing[j]))
  }

  /**
   * When an exception escapes, the handler did not catch it, and it came
   * from the summary of some listed file `k`, as `CrashedAt` describes.
   */
  lemma {:induction false} ScanCrashLeavesRest(d: Dirs, listing: seq<string>, summarise: DeckSummariser, catches: Handler)
    requires Snapshot(listing, d.uploads)
    ensures var p := Scan(d, listing, summarise, catches);
            p.crash.Some? ==>
              !catches(p.crash.value) && exists k :: 0 <= k < |listing| && CrashedAt(d, listing, p, k, summarise, catches)
  {
    if |listing| > 0 {
      var front := listing[..|listing| - 1];
      LastIsNew(listing, d.uploads);
      var p0 := Scan(d, front, summarise, catches);
      if p0.crash.Some? {
        ScanCrashLeavesRest(d, front, summarise, catches);
        var k :| 0 <= k < |front| && CrashedAt(d, front, p0, k, summarise, catches);
        CrashEarlierKept(d, listing, k, summarise, catches);
      } else if Scan(d, listing, summarise, catches).crash.Some? {
        ScanSettlesSnapshot(d, front, summarise, catches);
        assert forall j :: 0 <= j < |front| ==> front[j] == listing[j];
        CrashAtLast(d, listing, summarise, catches);
      }
    }
  }

  /** A crash before the last file stays where it was. */
  lemma {:induction false} CrashEarlierKept(d: Dirs, listing: seq<string>, k: nat, summarise: DeckSummariser, catches: Handler)
    requires |listing| > 0 && Snapshot(listing, d.uploads) && Snapshot(listing[..|listing| - 1], d.uploads)
    requires listing[|listing| - 1] !in listing[..|listing| - 1]
    requires Scan(d, listing[..|listing| - 1], summarise, catches).crash.Some? && k < |listing| - 1
    requires CrashedAt(d, listing[..|listing| - 1], Scan(d, listing[..|listing| - 1], summarise, catches), k, summarise, catches)
    ensures Scan(d, listing, summarise, catches).crash.Some?
    ensures CrashedAt(d, listing, Scan(d, listing, summarise, catches), k, summarise, catches)
  {
    var front, name := listing[..|listing| - 1], listing[|listing| - 1];
    var p := Scan(d, front, summarise, catches);
    assert Scan(d, listing, summarise, catches) == p;
    ScanFrame(d, front, summarise, catches);
    assert Agree(p.dirs.uploads, d.uploads, name);
    assert forall j :: 0 <= j < |front| ==> front[j] == listing[j];
  }

  /** A crash at the last file, after the earlier files all settled. */
  lemma {:induction false} CrashAtLast(d: Dirs, listing: seq<string>, summarise: DeckSummariser, catches: Handler)
    requires |listing| > 0 && Snapshot(listing, d.uploads) && Snapshot(listing[..|listing| - 1], d.uploads)
    requires listing[|listing| - 1] !in listing[..|listing| - 1]
    requires Scan(d, listing[..|listing| - 1], summarise, catches).crash.None?
    requires forall j :: 0 <= j < |listing| - 1 ==>
               Settled(d, Scan(d, listing[..|listing| - 1], summarise, catches).dirs, listing[j], summarise, catches)
    requires Scan(d, listing, summarise, catches).crash.Some?
    ensures !catches(Scan(d, listing, summarise, catches).crash.value)
    ensures CrashedAt(d, listing, Scan(d, listing, summarise, catches), |listing| - 1, summarise, catches)
  {
    var front, name := listing[..|listing| - 1], listing[|listing| - 1];
    var p0 := Scan(d, front, summarise, catches);
    ScanFrame(d, front, summarise, catches);
    assert Agree(p0.dirs.uploads, d.uploads, name);
    assert Scan(d, listing, summarise, catches).dirs == p0.dirs;
    assert forall j :: 0 <= j < |front| ==> front[j] == listing[j];
  }

  /**
   * With the source's handler and a summariser that never raises
   * PresenterError, no pass ever writes to the errors directory.
   */
  lemma {:induction false} NoErrorsEverWritten(d: Dirs, listing: seq<string>, summarise: DeckSummariser)
    requires forall n, c, t :: summarise(n, c, t).Failure? ==> !summarise(n, c, t).error.PresenterError?
    ensures Scan(d, listing, summarise, CaughtBySource).dirs.errors == d.errors
  {
    if |listing| > 0 {
      NoErrorsEverWritten(d, listing[..|listing| - 1], summarise);
    }
  }

  /**
   * The summariser the worker calls, `Presenter.get_presentation_summery` on
   * the upload: how each upload parses, the chat calls made for its slides
   * and the order in which they complete are given per upload name.
   */
  function PresenterSummariser(parse: (string, Content) -> Result<Deck, Exception>, chatFor: string -> ChatCall,
                               orderFor: (string, nat) -> seq<nat>): DeckSummariser
    requires forall n, k :: IsCompletionOrder(orderFor(n, k), k)
  {
    (name, content, timeout) =>
      var deck := parse(name, content);
      Summary(deck, timeout, chatFor(name), orderFor(name, if deck.Success? then |ExtractedTexts(deck.value)| else 0))
  }

  /**
   * With the real summary behind it, and neither the parser nor any chat
   * call raising PresenterError, the source's handler never catches
   * anything: no pass ever writes to the errors directory.
   */
  lemma {:induction false} PresenterNeverWritesErrors(d: Dirs, listing: seq<string>,
                                                      parse: (string, Content) -> Result<Deck, Exception>,
                                                      chatFor: string -> ChatCall, orderFor: (string, nat) -> seq<nat>)
    requires forall n, k :: IsCompletionOrder(orderFor(n, k), k)
    requires forall n, c :: parse(n, c).Failure? ==> !parse(n, c).error.PresenterError?
    requires forall n, k, p, t :: chatFor(n)(k, p, t).Failure? ==> !chatFor(n)(k, p, t).error.PresenterError?
    ensures Scan(d, listing, PresenterSummariser(parse, chatFor, orderFor), CaughtBySource).dirs.errors == d.errors
  {
    var summarise := PresenterSummariser(parse, chatFor, orderFor);
    forall n, c, t ensures summarise(n, c, t).Failure? ==> !summarise(n, c, t).error.PresenterError? {
      var deck := parse(n, c);
      SummaryNeverRaisesPresenterError(deck, t, chatFor(n),
                                       orderFor(n, if deck.Success? then |ExtractedTexts(deck.value)| else 0));
    }
    NoErrorsEverWritten(d, listing, summarise);
  }

  /**
   * As written, a deck that fails to summarise with anything but
   * PresenterError ends the pass at the first file, which stays in uploads,
   * and nothing is moved to errors.
   */
  lemma {:induction false} DeckFailureAbortsPass(d: Dirs, listing: seq<string>, summarise: DeckSummariser, e: Exception)
    requires |listing| > 0 && listing[0] in d.uploads
    requires summarise(listing[0], d.uploads[listing[0]], ProcessorTimeout) == Failure(e) && !e.PresenterError?
    ensures Scan(d, listing, summarise, CaughtBySource) == Pass(d, Some(e))
  {
    assert listing[..1][..0] == [];
    ScanCrashSticks(d, listing, 1, summarise, CaughtBySource);
  }

  /**
   * With a handler for every exception, a pass over a snapshot always
   * completes, and every file of it ends in outputs or in errors.
   */
  lemma {:induction false} ScanIntendedSettlesAll(d: Dirs, listing: seq<string>, summarise: DeckSummariser)
    requires Snapshot(listing, d.uploads)
    ensures var p := Scan(d, listing, summarise, CatchAll);
            p.crash.None? && forall j :: 0 <= j < |listing| ==> Settled(d, p.dirs, listing[j], summarise, CatchAll)
  {
    if |listing| > 0 {
      var front, name := listing[..|listing| - 1], listing[|listing| - 1];
      assert listing == front + [name];
      ScanIntendedSettlesAll(d, front, summarise);
      ScanFrame(d, front, summarise, CatchAll);
      LastIsNew(listing, d.uploads);
      ScanSettlesSnapshot(d, listing, summarise, CatchAll);
    }
  }
}

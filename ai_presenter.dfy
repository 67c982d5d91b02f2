/**
 * The summary requester and the batch command line: one chat call per
 * extracted slide, each outcome stored under its slide index in a dict that
 * keeps insertion (completion) order; the JSON path beside each deck; and the
 * loop that carries on past a failing deck.
 */
module AiPresenter {
  import opened Wrappers
  import opened PyStrings
  import opened Exceptions
  import opened JobStore
  import opened PresentationHelper

  /** The fixed prompt put in front of every slide's text. */
  const Query := "Please give a very short summery of this slide:\n"

  /** What a slide's entry holds when its call lost the race against the timer. */
  const TimedOutText := "Slide request timed out."

  /**
   * The chat call made for the slide with the given index, for a prompt under
   * a timeout, as `asyncio.wait_for` sees it: the reply, or the exception it
   * raises (TimeoutError when the timer wins). Each call is its own: two
   * slides with the same text may fare differently.
   */
  type ChatCall = (nat, string, int) -> Result<string, Exception>

  /**
   * The `try`/`except` of `__call_chat`: what is stored for the slide, or the
   * exception that escapes. Only TimeoutError and OpenAIError are handled, so
   * a ChatHelper.Error, which is not an OpenAIError, escapes.
   */
  function Settle(call: Result<string, Exception>): (r: Result<string, Exception>)
    ensures r.Success? <==> call.Success? || call.error.TimeoutError? || call.error.OpenAIError?
    ensures call.Success? ==> r == Success(call.value)
    ensures call.Failure? && call.error.TimeoutError? ==> r == Success(TimedOutText)
    ensures call.Failure? && call.error.OpenAIError? ==> r == Success(Str(call.error))
    ensures r.Failure? ==> r == call
  {
    match call
    case Success(reply) => Success(reply)
    case Failure(TimeoutError) => Success(TimedOutText)
    case Failure(OpenAIError(m)) => Success(Str(OpenAIError(m)))
    case Failure(e) => Failure(e)
  }

  /** ChatHelper.Error is not among the handled exceptions: it escapes the per-slide handler. */
  lemma {:induction false} ChatHelperErrorEscapes(message: string)
    ensures Settle(Failure(ChatHelperError(message))) == Failure(ChatHelperError(message))
  {
  }

  /** The values stored under `keys`, in that order. */
  function ValuesOf(keys: seq<nat>, items: map<nat, string>): (r: seq<string>)
    requires forall j :: 0 <= j < |keys| ==> keys[j] in items
    ensures |r| == |keys| && forall j :: 0 <= j < |keys| ==> r[j] == items[keys[j]]
  {
    if |keys| == 0 then [] else ValuesOf(keys[..|keys| - 1], items) + [items[keys[|keys| - 1]]]
  }

  lemma {:induction false} ValuesOfPut(keys: seq<nat>, items: map<nat, string>, k: nat, v: string)
    requires forall j :: 0 <= j < |keys| ==> keys[j] in items
    requires k !in keys
    ensures ValuesOf(keys + [k], items[k := v]) == ValuesOf(keys, items) + [v]
  {
    var a, b := ValuesOf(keys + [k], items[k := v]), ValuesOf(keys, items) + [v];
    assert |a| == |b|;
    forall j | 0 <= j < |a| ensures a[j] == b[j] {
      if j < |keys| {
        assert (keys + [k])[j] == keys[j];
      }
    }
  }

  /** The `result: dict[int, str]` shared by the per-slide calls: values in insertion order. */
  class SlideResults {
    var keys: seq<nat>
    var items: map<nat, string>

    ghost predicate Valid()
      reads this
    {
      (forall i, j :: 0 <= i < j < |keys| ==> keys[i] != keys[j])
      && (forall k :: k in items <==> k in keys)
    }

    constructor ()
      ensures Valid() && keys == [] && items == map[]
    {
      keys, items := [], map[];
    }

    /** `result[k] = v`: a new key goes last, an existing key keeps its place. */
    method Put(k: nat, v: string)
      requires Valid()
      modifies this
      ensures Valid()
      ensures items == old(items)[k := v]
      ensures keys == if k in old(items) then old(keys) else old(keys) + [k]
    {
      if k !in items {
        keys := keys + [k];
      }
      items := items[k := v];
    }

    /** `result.values()`. */
    function Values(): (r: seq<string>)
      reads this
      requires Valid()
      ensures |r| == |keys| && forall i :: 0 <= i < |keys| ==> r[i] == items[keys[i]]
    {
      ValuesOf(keys, items)
    }
  }

  /** `Presenter.__call_chat` for one slide: store the settled text, or report the escaping exception. */
  method CallChat(result: SlideResults, query: string, slideText: string, index: nat, timeout: int, chat: ChatCall)
    returns (escaped: Option<Exception>)
    requires result.Valid()
    modifies result
    ensures result.Valid()
    ensures Settle(chat(index, query + slideText, timeout)).Success? ==>
              escaped == None
              && result.items == old(result.items)[index := Settle(chat(index, query + slideText, timeout)).value]
              && result.keys == if index in old(result.items) then old(result.keys) else old(result.keys) + [index]
    ensures Settle(chat(index, query + slideText, timeout)).Failure? ==>
              escaped == Some(Settle(chat(index, query + slideText, timeout)).error)
              && result.items == old(result.items) && result.keys == old(result.keys)
  {
    var call := chat(index, query + slideText, timeout);
    match call {
      case Success(reply) =>
        result.Put(index, reply);
        escaped := None;
      case Failure(TimeoutError) =>
        result.Put(index, TimedOutText);
        escaped := None;
      case Failure(OpenAIError(m)) =>
        result.Put(index, Str(OpenAIError(m)));
        escaped := None;
      case Failure(e) =>
        escaped := Some(e);
    }
  }

  /** The order in which the calls for `n` slides complete: each slide index once. */
  predicate IsCompletionOrder(order: seq<nat>, n: nat) {
    |order| == n
    && (forall j :: 0 <= j < |order| ==> order[j] < n)
    && (forall i, j :: 0 <= i < j < |order| ==> order[i] != order[j])
  }

  /** In a completion order, the next index has not completed before. */
  lemma {:induction false} NextIsFresh(order: seq<nat>, i: nat)
    requires i < |order| && forall a, b :: 0 <= a < b < |order| ==> order[a] != order[b]
    ensures order[i] !in order[..i]
  {
  }

  /** What the slide with index `k` settles to. */
  function SlideOutcome(slides: seq<string>, k: nat, timeout: int, chat: ChatCall): Result<string, Exception>
    requires k < |slides|
  {
    Settle(chat(k, Query + slides[k], timeout))
  }

  /**
   * Specification of the gathered result: the stored texts in completion
   * order, or the first exception to escape in that order.
   */
  function Gather(slides: seq<string>, order: seq<nat>, timeout: int, chat: ChatCall): Result<seq<string>, Exception>
    requires forall j :: 0 <= j < |order| ==> order[j] < |slides|
  {
    if |order| == 0 then Success([])
    else match Gather(slides, order[..|order| - 1], timeout, chat)
      case Failure(e) => Failure(e)
      case Success(vs) =>
        match SlideOutcome(slides, order[|order| - 1], timeout, chat)
        case Failure(e) => Failure(e)
        case Success(s) => Success(vs + [s])
  }

  /**
   * The gathered result succeeds exactly when every slide settles; it then
   * holds one entry per call, each the settled text of the slide that
   * completed in that position; otherwise it is the exception of the first
   * slide in completion order that did not settle.
   */
  lemma {:induction false} GatherShape(slides: seq<string>, order: seq<nat>, timeout: int, chat: ChatCall)
    requires forall j :: 0 <= j < |order| ==> order[j] < |slides|
    ensures Gather(slides, order, timeout, chat).Success? <==>
              forall j :: 0 <= j < |order| ==> SlideOutcome(slides, order[j], timeout, chat).Success?
    ensures Gather(slides, order, timeout, chat).Success? ==>
              var vs := Gather(slides, order, timeout, chat).value;
              |vs| == |order| && forall j :: 0 <= j < |order| ==> vs[j] == SlideOutcome(slides, order[j], timeout, chat).value
    ensures Gather(slides, order, timeout, chat).Failure? ==>
              exists j :: 0 <= j < |order|
                          && SlideOutcome(slides, order[j], timeout, chat) == Failure(Gather(slides, order, timeout, chat).error)
                          && forall i :: 0 <= i < j ==> SlideOutcome(slides, order[i], timeout, chat).Success?
  {
    if |order| > 0 {
      var front := order[..|order| - 1];
      GatherShape(slides, front, timeout, chat);
      assert forall j :: 0 <= j < |front| ==> front[j] == order[j];
      var g := Gather(slides, order, timeout, chat);
      if Gather(slides, front, timeout, chat).Failure? {
        var j :| 0 <= j < |front| && SlideOutcome(slides, front[j], timeout, chat) == Failure(g.error)
                 && forall i :: 0 <= i < j ==> SlideOutcome(slides, front[i], timeout, chat).Success?;
        assert SlideOutcome(slides, order[j], timeout, chat) == Failure(g.error);
      } else if g.Failure? {
        assert SlideOutcome(slides, order[|order| - 1], timeout, chat) == Failure(g.error);
      }
    }
  }

  /** Once an earlier call has escaped, later completions do not change the result. */
  lemma {:induction false} GatherFailureSticks(slides: seq<string>, order: seq<nat>, i: nat, timeout: int, chat: ChatCall)
    requires forall j :: 0 <= j < |order| ==> order[j] < |slides|
    requires i <= |order|
    requires Gather(slides, order[..i], timeout, chat).Failure?
    ensures Gather(slides, order, timeout, chat) == Gather(slides, order[..i], timeout, chat)
  {
    if i < |order| {
      assert order[..|order| - 1][..i] == order[..i];
      GatherFailureSticks(slides, order[..|order| - 1], i, timeout, chat);
    } else {
      assert order[..i] == order;
    }
  }

  /** Specification of `get_presentation_summery`, given the deck the parser opens (or its failure). */
  function Summary(deck: Result<Deck, Exception>, timeout: int, chat: ChatCall, order: seq<nat>): Result<seq<string>, Exception>
    requires deck.Success? ==> IsCompletionOrder(order, |ExtractedTexts(deck.value)|)
  {
    match deck
    case Failure(e) => Failure(e)
    case Success(d) => Gather(ExtractedTexts(d), order, timeout, chat)
  }

  /**
   * The fan-out and `gather` of `get_presentation_summery`: one `__call_chat`
   * per slide, taken in the order the calls complete, into a fresh dict whose
   * values are returned; the first exception to escape fails the batch.
   */
  method GatherSummaries(slidesText: seq<string>, requestTimeout: int, chat: ChatCall, order: seq<nat>)
    returns (r: Result<seq<string>, Exception>)
    requires IsCompletionOrder(order, |slidesText|)
    ensures r == Gather(slidesText, order, requestTimeout, chat)
  {
    var result := new SlideResults();
    for i := 0 to |order|
      invariant result.Valid() && result.keys == order[..i]
      invariant Gather(slidesText, order[..i], requestTimeout, chat) == Success(result.Values())
    {
      var index := order[i];
      NextIsFresh(order, i);
      ghost var items0 := result.items;
      ghost var outcome := SlideOutcome(slidesText, index, requestTimeout, chat);
      var escaped := CallChat(result, Query, slidesText[index], index, requestTimeout, chat);
      assert outcome == Settle(chat(index, Query + slidesText[index], requestTimeout));
      if escaped.Some? {
        GatherStepFails(slidesText, order, i, requestTimeout, chat);
        return Failure(escaped.value);
      }
      GatherStepStores(slidesText, order, i, requestTimeout, chat, items0);
    }
    assert order[..|order|] == order;
    return Success(result.Values());
  }

  /**
   * `Presenter.get_presentation_summery`. The deck the parser opens and the
   * order in which the per-slide calls complete are inputs.
   */
  method GetPresentationSummary(deck: Result<Deck, Exception>, requestTimeout: int, chat: ChatCall, order: seq<nat>)
    returns (r: Result<seq<string>, Exception>)
    requires deck.Success? ==> IsCompletionOrder(order, |ExtractedTexts(deck.value)|)
    ensures r == Summary(deck, requestTimeout, chat, order)
  {
    if deck.Failure? {
      return Failure(deck.error);
    }
    var slidesText := GetAllTextFromPresentation(deck.value);
    r := GatherSummaries(slidesText, requestTimeout, chat, order);
  }

  /**
   * When every slide settles, the summary has exactly one entry per
   * extracted slide, so one per slide whose text is non-empty and not all
   * whitespace, and entry `j` is the outcome of the slide that completed
   * `j`-th; when the calls complete in index order, entry `k` belongs to slide `k`.
   */
  lemma {:induction false} SummaryOnePerSlide(d: Deck, timeout: int, chat: ChatCall, order: seq<nat>)
    requires IsCompletionOrder(order, |ExtractedTexts(d)|)
    requires forall k :: 0 <= k < |ExtractedTexts(d)| ==> SlideOutcome(ExtractedTexts(d), k, timeout, chat).Success?
    ensures Summary(Success(d), timeout, chat, order).Success?
    ensures var vs := Summary(Success(d), timeout, chat, order).value;
            |vs| == |ExtractedTexts(d)| && |vs| == |KeptSlides(d)|
            && (forall j :: 0 <= j < |vs| ==> vs[j] == SlideOutcome(ExtractedTexts(d), order[j], timeout, chat).value)
            && ((forall j :: 0 <= j < |order| ==> order[j] == j) ==>
                  forall k :: 0 <= k < |vs| ==> vs[k] == SlideOutcome(ExtractedTexts(d), k, timeout, chat).value)
  {
    GatherShape(ExtractedTexts(d), order, timeout, chat);
    ExtractedTextsPerSlide(d);
  }

  /** A chat stand-in that replies with the prompt itself. */
  function Echo(index: nat, prompt: string, timeout: int): Result<string, Exception> {
    Success(prompt)
  }

  /**
   * The result follows completion order, not slide order: two slides whose
   * calls finish in reverse order come back reversed.
   */
  lemma {:induction false} CompletionOrderIsResultOrder()
    ensures Gather(["first ", "second "], [1, 0], 100, Echo) == Success([Query + "second ", Query + "first "])
  {
    var slides := ["first ", "second "];
    var second, first := Query + "second ", Query + "first ";
    var none: seq<nat>, one: seq<nat>, both: seq<nat> := [], [1], [1, 0];
    assert SlideOutcome(slides, 1, 100, Echo) == Success(second);
    assert SlideOutcome(slides, 0, 100, Echo) == Success(first);
    assert Gather(slides, none, 100, Echo) == Success([]);
    GatherAppend(slides, none, 1, 100, Echo);
    assert none + [1] == one;
    assert Gather(slides, one, 100, Echo) == Success([] + [second]);
    assert [] + [second] == [second];
    GatherAppend(slides, one, 0, 100, Echo);
    assert one + [0] == both;
    assert [second] + [first] == [second, first];
    assert Gather(slides, both, 100, Echo) == Success([second, first]);
  }

  /** Gathering one more completion: the earlier failure, this slide's exception, or one more entry. */
  lemma {:induction false} GatherAppend(slides: seq<string>, order: seq<nat>, k: nat, timeout: int, chat: ChatCall)
    requires forall j :: 0 <= j < |order| ==> order[j] < |slides|
    requires k < |slides|
    ensures Gather(slides, order + [k], timeout, chat)
            == if Gather(slides, order, timeout, chat).Failure? then Gather(slides, order, timeout, chat)
               else if SlideOutcome(slides, k, timeout, chat).Failure? then Failure(SlideOutcome(slides, k, timeout, chat).error)
               else Success(Gather(slides, order, timeout, chat).value + [SlideOutcome(slides, k, timeout, chat).value])
  {
    assert (order + [k])[..|order|] == order;
  }

  /** The loop step of `GatherSummaries` when the slide settles: the dict grows by its entry. */
  lemma {:induction false} GatherStepStores(slides: seq<string>, order: seq<nat>, i: nat, timeout: int, chat: ChatCall,
                         items: map<nat, string>)
    requires IsCompletionOrder(order, |slides|) && i < |order|
    requires forall j :: 0 <= j < i ==> order[j] in items
    requires Gather(slides, order[..i], timeout, chat) == Success(ValuesOf(order[..i], items))
    requires SlideOutcome(slides, order[i], timeout, chat).Success?
    ensures order[..i + 1] == order[..i] + [order[i]]
    ensures Gather(slides, order[..i + 1], timeout, chat)
            == Success(ValuesOf(order[..i + 1], items[order[i] := SlideOutcome(slides, order[i], timeout, chat).value]))
  {
    assert order[..i + 1] == order[..i] + [order[i]];
    NextIsFresh(order, i);
    GatherAppend(slides, order[..i], order[i], timeout, chat);
    ValuesOfPut(order[..i], items, order[i], SlideOutcome(slides, order[i], timeout, chat).value);
  }

  /** The loop step of `GatherSummaries` when the slide's exception escapes: the batch fails with it. */
  lemma {:induction false} GatherStepFails(slides: seq<string>, order: seq<nat>, i: nat, timeout: int, chat: ChatCall)
    requires IsCompletionOrder(order, |slides|) && i < |order|
    requires Gather(slides, order[..i], timeout, chat).Success?
    requires SlideOutcome(slides, order[i], timeout, chat).Failure?
    ensures Gather(slides, order, timeout, chat) == Failure(SlideOutcome(slides, order[i], timeout, chat).error)
  {
    assert order[..i + 1] == order[..i] + [order[i]];
    GatherAppend(slides, order[..i], order[i], timeout, chat);
    GatherFailureSticks(slides, order, i + 1, timeout, chat);
  }

  /**
   * Neither the deck parser nor the chat calls raise PresenterError, so
   * neither does the summary: its only failures are theirs.
   */
  lemma {:induction false} SummaryNeverRaisesPresenterError(deck: Result<Deck, Exception>, timeout: int, chat: ChatCall, order: seq<nat>)
    requires deck.Success? ==> IsCompletionOrder(order, |ExtractedTexts(deck.value)|)
    requires deck.Failure? ==> !deck.error.PresenterError?
    requires forall k, p, t :: chat(k, p, t).Failure? ==> !chat(k, p, t).error.PresenterError?
    ensures Summary(deck, timeout, chat, order).Failure? ==> !Summary(deck, timeout, chat, order).error.PresenterError?
  {
    if deck.Success? {
      GatherShape(ExtractedTexts(deck.value), order, timeout, chat);
    }
  }

  /** `path[0: path.rfind('.')] + ".json"` from `CLI.__save_as_json`. */
  function OutputPath(path: string): string {
    PyPrefix(path, RFind(path, '.')) + ".json"
  }

  /** The last extension is replaced: `a.pptx` gives `a.json`, `a.b.pptx` gives `a.b.json`. */
  lemma {:induction false} OutputPathReplacesExtension(stem: string, ext: string)
    requires '.' !in ext
    ensures OutputPath(stem + "." + ext) == stem + ".json"
  {
    assert stem + "." + ext == stem + ['.'] + ext;
    RFindLast(stem, '.', ext);
    assert (stem + ['.'] + ext)[..|stem|] == stem;
  }

  /** With no `.`, `rfind` gives -1 and the slice drops the last character: `slides` gives `slide.json`. */
  lemma {:induction false} OutputPathWithoutDot(path: string)
    requires '.' !in path
    ensures |path| > 0 ==> OutputPath(path) == path[..|path| - 1] + ".json"
    ensures path == "" ==> OutputPath(path) == ".json"
  {
  }

  /** A name without extension loses its last letter: `slides` gives `slide.json`. */
  lemma {:induction false} OutputPathDropsLastLetter()
    ensures OutputPath("slides") == "slide.json"
  {
    assert '.' !in "slides";
    OutputPathWithoutDot("slides");
  }

  /** A `.` only in a directory name cuts the path there: `./decks/report` gives `.json`. */
  lemma {:induction false} OutputPathCutsAtDirectoryDot()
    ensures OutputPath("./decks/report") == ".json"
  {
    assert "./decks/report" == "" + "." + "/decks/report";
    assert '.' !in "/decks/report";
    OutputPathReplacesExtension("", "/decks/report");
  }

  /**
   * The evidently intended output path: the extension of the last path
   * component replaced by `.json`, or `.json` appended when it has none.
   */
  function OutputPathIntended(path: string): (r: string)
    ensures |r| >= 5 && r[|r| - 5..] == ".json"
  {
    var dot, slash := RFind(path, '.'), RFind(path, '/');
    if dot > slash then path[..dot] + ".json" else path + ".json"
  }

  /** A path without any `.` keeps its whole name. */
  lemma {:induction false} OutputPathIntendedAppends(path: string)
    requires '.' !in path
    ensures OutputPathIntended(path) == path + ".json"
  {
  }

  /** The extension of the last component is replaced. */
  lemma {:induction false} OutputPathIntendedReplaces(stem: string, ext: string)
    requires '.' !in ext && '/' !in ext
    ensures OutputPathIntended(stem + "." + ext) == stem + ".json"
  {
    var p := stem + ['.'] + ext;
    assert stem + "." + ext == p;
    RFindLast(stem, '.', ext);
    RFindAfter(stem + ['.'], ext, '/');
    assert p[..|stem|] == stem;
  }

  /** A `.` in a directory name is left alone when the last component has none. */
  lemma {:induction false} OutputPathIntendedIgnoresDirectories(dir: string, name: string)
    requires '.' !in name && '/' !in name
    ensures OutputPathIntended(dir + "/" + name) == dir + "/" + name + ".json"
  {
    var q := dir + ['/'] + name;
    assert dir + "/" + name == q;
    RFindLast(dir, '/', name);
    RFindAfter(dir + ['/'], name, '.');
    RFindAfter(dir, ['/'], '.');
  }

  /** The intended path keeps the last letter the code drops: `slides` gives `slides.json`. */
  lemma {:induction false} OutputPathIntendedExample()
    ensures OutputPathIntended("slides") == "slides.json"
  {
    assert '.' !in "slides";
    OutputPathIntendedAppends("slides");
  }

  /** `CLI.__save_as_json`: the file it writes, or the PresenterError an IOError on opening becomes. */
  function SaveAsJson(path: string, answer: seq<string>, writable: bool): (r: Result<(string, Content), Exception>)
    ensures r.Success? <==> writable
    ensures writable ==> r.value == (OutputPath(path), Json(answer))
    ensures !writable ==> r == Failure(PresenterError("Failed to write json file."))
  {
    var outputPath := OutputPath(path);
    if writable then Success((outputPath, Json(answer)))
    else Failure(PresenterError("Failed to write json file."))
  }

  /**
   * What the deck path at the given position of the command line summarises
   * to under a timeout: the summaries, or the exception. Each attempt is its
   * own: a path named twice may fare differently.
   */
  type Summariser = (nat, string, int) -> Result<seq<string>, Exception>

  /** One iteration of `CLI.__call__`: summarise, then save; either may fail. */
  function Attempt(i: nat, path: string, timeout: int, summarise: Summariser, canWrite: string -> bool)
    : Result<(string, Content), Exception>
  {
    match summarise(i, path, timeout)
    case Failure(e) => Failure(e)
    case Success(answer) => SaveAsJson(path, answer, canWrite(OutputPath(path)))
  }

  /** The files on disk and the lines printed to standard error. */
  datatype CliState = CliState(disk: map<string, Content>, stderr: seq<string>)

  /** The state after one path: its file written, or its exception printed. */
  function AttemptStep(s: CliState, i: nat, path: string, timeout: int, summarise: Summariser, canWrite: string -> bool)
    : CliState
  {
    match Attempt(i, path, timeout, summarise, canWrite)
    case Success(file) => CliState(s.disk[file.0 := file.1], s.stderr)
    case Failure(e) => CliState(s.disk, s.stderr + [Str(e)])
  }

  /** Specification of the batch run: every path in order, from the given state. */
  function RunSpec(s: CliState, paths: seq<string>, timeout: int, summarise: Summariser, canWrite: string -> bool): CliState {
    if |paths| == 0 then s
    else AttemptStep(RunSpec(s, paths[..|paths| - 1], timeout, summarise, canWrite), |paths| - 1, paths[|paths| - 1],
                     timeout, summarise, canWrite)
  }

  /** `CLI.__call__`: try every path, report a failure and go on. */
  method RunCli(disk: map<string, Content>, paths: seq<string>, timeout: int, summarise: Summariser, canWrite: string -> bool)
    returns (written: map<string, Content>, stderr: seq<string>)
    ensures CliState(written, stderr) == RunSpec(CliState(disk, []), paths, timeout, summarise, canWrite)
  {
    written, stderr := disk, [];
    for i := 0 to |paths|
      invariant CliState(written, stderr) == RunSpec(CliState(disk, []), paths[..i], timeout, summarise, canWrite)
    {
      assert paths[..i + 1][..i] == paths[..i];
      var path := paths[i];
      var answer := summarise(i, path, timeout);
      if answer.Failure? {
        stderr := stderr + [Str(answer.error)];
        continue;
      }
      var saved := SaveAsJson(path, answer.value, canWrite(OutputPath(path)));
      if saved.Failure? {
        stderr := stderr + [Str(saved.error)];
        continue;
      }
      written := written[saved.value.0 := saved.value.1];
    }
    assert paths[..|paths|] == paths;
  }

  /** The output paths of the paths whose attempt succeeds. */
  ghost function Saved(paths: seq<string>, timeout: int, summarise: Summariser, canWrite: string -> bool): set<string> {
    set i | 0 <= i < |paths| && Attempt(i, paths[i], timeout, summarise, canWrite).Success? :: OutputPath(paths[i])
  }

  /**
   * A failure does not stop the run: the files on disk afterwards are
   * exactly those there before plus the output path of every path whose
   * attempt succeeded.
   */
  lemma {:induction false} RunWritesEverySuccess(s: CliState, paths: seq<string>, timeout: int, summarise: Summariser,
                                                 canWrite: string -> bool)
    ensures RunSpec(s, paths, timeout, summarise, canWrite).disk.Keys == s.disk.Keys + Saved(paths, timeout, summarise, canWrite)
  {
    if |paths| > 0 {
      RunWritesEverySuccess(s, paths[..|paths| - 1], timeout, summarise, canWrite);
      SavedAppend(paths, timeout, summarise, canWrite);
    }
  }

  /** The paths whose attempt succeeds, one more path at a time. */
  lemma {:induction false} SavedAppend(paths: seq<string>, timeout: int, summarise: Summariser, canWrite: string -> bool)
    requires |paths| > 0
    ensures var last := paths[|paths| - 1];
            Saved(paths, timeout, summarise, canWrite)
            == Saved(paths[..|paths| - 1], timeout, summarise, canWrite)
               + (if Attempt(|paths| - 1, last, timeout, summarise, canWrite).Success? then {OutputPath(last)} else {})
  {
    SavedFrontIncluded(paths, timeout, summarise, canWrite);
    SavedNoneBesides(paths, timeout, summarise, canWrite);
    var last := paths[|paths| - 1];
    if Attempt(|paths| - 1, last, timeout, summarise, canWrite).Success? {
      assert OutputPath(paths[|paths| - 1]) in Saved(paths, timeout, summarise, canWrite);
    }
  }

  lemma {:induction false} SavedFrontIncluded(paths: seq<string>, timeout: int, summarise: Summariser, canWrite: string -> bool)
    requires |paths| > 0
    ensures Saved(paths[..|paths| - 1], timeout, summarise, canWrite) <= Saved(paths, timeout, summarise, canWrite)
  {
    var front := paths[..|paths| - 1];
    forall x | x in Saved(front, timeout, summarise, canWrite) ensures x in Saved(paths, timeout, summarise, canWrite) {
      var i :| 0 <= i < |front| && Attempt(i, front[i], timeout, summarise, canWrite).Success? && x == OutputPath(front[i]);
      assert paths[i] == front[i];
    }
  }

  lemma {:induction false} SavedNoneBesides(paths: seq<string>, timeout: int, summarise: Summariser, canWrite: string -> bool)
    requires |paths| > 0
    ensures forall x :: x in Saved(paths, timeout, summarise, canWrite) ==>
              x in Saved(paths[..|paths| - 1], timeout, summarise, canWrite)
              || (Attempt(|paths| - 1, paths[|paths| - 1], timeout, summarise, canWrite).Success? && x == OutputPath(paths[|paths| - 1]))
  {
    var front := paths[..|paths| - 1];
    forall x | x in Saved(paths, timeout, summarise, canWrite)
      ensures x in Saved(front, timeout, summarise, canWrite)
              || (Attempt(|paths| - 1, paths[|paths| - 1], timeout, summarise, canWrite).Success? && x == OutputPath(paths[|paths| - 1]))
    {
      var i :| 0 <= i < |paths| && Attempt(i, paths[i], timeout, summarise, canWrite).Success? && x == OutputPath(paths[i]);
      if i < |front| {
        assert paths[i] == front[i];
      }
    }
  }

  /** Each written file holds the answer of the last path that saved to it. */
  lemma {:induction false} RunKeepsLastWriter(s: CliState, paths: seq<string>, timeout: int, summarise: Summariser,
                                              canWrite: string -> bool, i: nat)
    requires i < |paths| && Attempt(i, paths[i], timeout, summarise, canWrite).Success?
    requires forall j :: i < j < |paths| && Attempt(j, paths[j], timeout, summarise, canWrite).Success?
                         ==> OutputPath(paths[j]) != OutputPath(paths[i])
    ensures var r := RunSpec(s, paths, timeout, summarise, canWrite);
            OutputPath(paths[i]) in r.disk && r.disk[OutputPath(paths[i])] == Json(summarise(i, paths[i], timeout).value)
  {
    var front := paths[..|paths| - 1];
    if i < |front| {
      assert front[i] == paths[i];
      forall j | i < j < |front| && Attempt(j, front[j], timeout, summarise, canWrite).Success?
        ensures OutputPath(front[j]) != OutputPath(front[i])
      {
        assert front[j] == paths[j];
      }
      RunKeepsLastWriter(s, front, timeout, summarise, canWrite, i);
    }
  }

  /** The `str` of the exception of each failed attempt, in path order. */
  function FailureLines(paths: seq<string>, timeout: int, summarise: Summariser, canWrite: string -> bool)
    : (r: seq<string>)
    ensures |r| <= |paths|
  {
    if |paths| == 0 then []
    else
      var front := FailureLines(paths[..|paths| - 1], timeout, summarise, canWrite);
      match Attempt(|paths| - 1, paths[|paths| - 1], timeout, summarise, canWrite)
      case Success(_) => front
      case Failure(e) => front + [Str(e)]
  }

  /**
   * There are no failure lines exactly when every attempt succeeds, and each
   * line is the `str` of the exception of some failed attempt.
   */
  lemma {:induction false} FailureLinesShape(paths: seq<string>, timeout: int, summarise: Summariser, canWrite: string -> bool)
    ensures FailureLines(paths, timeout, summarise, canWrite) == [] <==>
              forall i :: 0 <= i < |paths| ==> Attempt(i, paths[i], timeout, summarise, canWrite).Success?
    ensures forall line :: line in FailureLines(paths, timeout, summarise, canWrite) ==>
              exists i :: 0 <= i < |paths| && Attempt(i, paths[i], timeout, summarise, canWrite).Failure?
                          && line == Str(Attempt(i, paths[i], timeout, summarise, canWrite).error)
  {
    if |paths| > 0 {
      var front := paths[..|paths| - 1];
      FailureLinesShape(front, timeout, summarise, canWrite);
      assert forall i :: 0 <= i < |front| ==> front[i] == paths[i];
      var lines := FailureLines(paths, timeout, summarise, canWrite);
      forall line | line in lines
        ensures exists i :: 0 <= i < |paths| && Attempt(i, paths[i], timeout, summarise, canWrite).Failure?
                            && line == Str(Attempt(i, paths[i], timeout, summarise, canWrite).error)
      {
        if line in FailureLines(front, timeout, summarise, canWrite) {
          var i :| 0 <= i < |front| && Attempt(i, front[i], timeout, summarise, canWrite).Failure?
                   && line == Str(Attempt(i, front[i], timeout, summarise, canWrite).error);
          assert front[i] == paths[i];
        } else {
          assert Attempt(|paths| - 1, paths[|paths| - 1], timeout, summarise, canWrite).Failure?;
        }
      }
    }
  }

  /**
   * Standard error gains, after what it held, exactly one line per failed
   * attempt, the `str` of its exception, in path order; nothing when every
   * attempt succeeds.
   */
  lemma {:induction false} RunReportsOnlyFailures(s: CliState, paths: seq<string>, timeout: int, summarise: Summariser,
                                                  canWrite: string -> bool)
    ensures RunSpec(s, paths, timeout, summarise, canWrite).stderr == s.stderr + FailureLines(paths, timeout, summarise, canWrite)
    ensures (forall i :: 0 <= i < |paths| ==> Attempt(i, paths[i], timeout, summarise, canWrite).Success?) ==>
              RunSpec(s, paths, timeout, summarise, canWrite).stderr == s.stderr
  {
    if |paths| > 0 {
      RunReportsOnlyFailures(s, paths[..|paths| - 1], timeout, summarise, canWrite);
    }
    FailureLinesShape(paths, timeout, summarise, canWrite);
    assert s.stderr + [] == s.stderr;
  }

  /** The timeout `main` passes on: the `--timeout` value, or 100 when it is absent or 0. */
  function EffectiveTimeout(arg: Option<int>): (t: int)
    ensures t != 0
    ensures arg.None? || arg == Some(0) ==> t == 100
    ensures arg.Some? && arg.value != 0 ==> t == arg.value
  {
    if arg.Some? && arg.value != 0 then arg.value else 100
  }
}

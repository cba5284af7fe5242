/**
 * The upload card of the web front end
 * (`ewaste-frontend/src/components/UploadCard.jsx`) as a state machine over
 * its four pieces of React state. Rendering, animation and object URLs are
 * not modelled, and the outcome of the `fetch` call is an input.
 */
module UploadCard {
  import opened Base
  import Predict

  /** A file picked in the browser; only its identity matters here. */
  datatype File = File(name: string)

  /** A recent-uploads entry: the uploaded file (shown through its object URL) and the response fields spread beside it. */
  datatype HistoryEntry = HistoryEntry(image: File, data: Predict.PredictionResponse)

  /** `selectedFile`, `result`, `loading` and `history`. */
  datatype UiState = UiState(
    selected: Option<File>,
    result: Option<Predict.PredictionResponse>,
    loading: bool,
    history: seq<HistoryEntry>
  )

  /** The most recent uploads the card keeps. */
  const HistoryCap: nat := 5

  /** The state of a freshly mounted card. */
  const Initial: UiState := UiState(None, None, false, [])

  // ---------------------------------------------------------------------
  // Choosing a file
  // ---------------------------------------------------------------------

  /** `handleFileChange(file)`: selects the file (possibly none) and clears the shown result. */
  function HandleFileChange(st: UiState, file: Option<File>): (r: UiState)
    ensures r.selected == file && r.result.None?
    ensures r.loading == st.loading && r.history == st.history
  {
    st.(selected := file, result := None)
  }

  /**
   * The file input's `onChange`: passes the first chosen file on without a
   * check, so a cancelled dialog (no files) clears the selection.
   */
  function HandleInputChange(st: UiState, files: seq<File>): (r: UiState)
    ensures |files| == 0 ==> r.selected.None? && r.result.None?
    ensures |files| > 0 ==> r.selected == Some(files[0]) && r.result.None?
    ensures r.loading == st.loading && r.history == st.history
  {
    HandleFileChange(st, if |files| > 0 then Some(files[0]) else None)
  }

  /** `handleDrop(e)`: a drop carrying files selects the first one; an empty drop changes nothing. */
  function HandleDrop(st: UiState, files: seq<File>): (r: UiState)
    ensures |files| == 0 ==> r == st
    ensures |files| > 0 ==> r.selected == Some(files[0]) && r.result.None?
    ensures r.loading == st.loading && r.history == st.history
  {
    if |files| > 0 then HandleFileChange(st, Some(files[0])) else st
  }

  // ---------------------------------------------------------------------
  // Predicting
  // ---------------------------------------------------------------------

  /** How the `fetch` of `/predict/` ended: no answer at all, or an HTTP response. */
  datatype FetchOutcome = NetworkFailure | Replied(response: Predict.Response)

  /** `response.ok`: a status in 200-299. */
  predicate ResponseOk(o: FetchOutcome) {
    o.Replied? && 200 <= Predict.Status(o.response) <= 299
  }

  /** Only a successful prediction is `ok`; 400, 500 and network failures are not. */
  lemma ResponseOkIffSuccess(o: FetchOutcome)
    ensures ResponseOk(o) <==> o.Replied? && o.response.Success?
  {
  }

  /** `[entry, ...prev.slice(0, 4)]`: the new entry first, then at most four older ones. */
  function PushHistory(entry: HistoryEntry, prev: seq<HistoryEntry>): (h: seq<HistoryEntry>)
    ensures |h| == if |prev| < HistoryCap then |prev| + 1 else HistoryCap
    ensures h[0] == entry
    ensures forall i :: 1 <= i < |h| ==> h[i] == prev[i - 1]
  {
    [entry] + Take(prev, HistoryCap - 1)
  }

  /** The synchronous start of `handlePredict`: the guard, then `setLoading(true)` before the request. */
  function StartPredict(st: UiState): (r: UiState)
    ensures st.selected.None? ==> r == st
    ensures st.selected.Some? ==> r == st.(loading := true)
  {
    if st.selected.None? then st else st.(loading := true)
  }

  /**
   * The rest of `handlePredict` once the request has settled, for the file
   * captured when it started: an `ok` response sets the result and pushes
   * an entry; anything else is only reported in an alert; `loading` is
   * cleared in every case.
   */
  function FinishPredict(st: UiState, file: File, outcome: FetchOutcome): (r: UiState)
    ensures !r.loading && r.selected == st.selected
    ensures !ResponseOk(outcome) ==> r == st.(loading := false)
    ensures ResponseOk(outcome) ==>
              r.result == Some(outcome.response.body)
              && r.history == PushHistory(HistoryEntry(file, outcome.response.body), st.history)
  {
    if ResponseOk(outcome) then
      var data := outcome.response.body;
      st.(result := Some(data), history := PushHistory(HistoryEntry(file, data), st.history), loading := false)
    else
      st.(loading := false)
  }

  /** `handlePredict` when nothing else happens while the request is in flight. */
  function HandlePredict(st: UiState, outcome: FetchOutcome): (r: UiState)
    ensures st.selected.None? ==> r == st
    ensures st.selected.Some? ==> !r.loading && r.selected == st.selected
  {
    if st.selected.None? then st else FinishPredict(StartPredict(st), st.selected.value, outcome)
  }

  /**
   * What a click on Predict does: nothing at all without a file; with a
   * file, a failed request keeps the result and the history, and a
   * successful one shows the response and records it as the newest of at
   * most five entries, the older ones following in their previous order.
   */
  lemma HandlePredictEffect(st: UiState, outcome: FetchOutcome)
    requires |st.history| <= HistoryCap
    ensures st.selected.None? ==> HandlePredict(st, outcome) == st
    ensures st.selected.Some? && !ResponseOk(outcome) ==>
              HandlePredict(st, outcome) == st.(loading := false)
    ensures st.selected.Some? && ResponseOk(outcome) ==>
              var r := HandlePredict(st, outcome);
              r.result == Some(outcome.response.body)
              && r.history[0] == HistoryEntry(st.selected.value, outcome.response.body)
              && (forall i :: 1 <= i < |r.history| ==> r.history[i] == st.history[i - 1])
              && |r.history| == if |st.history| < HistoryCap then |st.history| + 1 else HistoryCap
    ensures |HandlePredict(st, outcome).history| <= HistoryCap
  {
  }

  /**
   * The response is applied to whatever the card shows when it arrives: a
   * file chosen while the request was in flight has its cleared result
   * replaced by the response for the earlier file, and the new history
   * entry names the earlier file.
   */
  lemma ReplyAfterReselect(st: UiState, other: File, outcome: FetchOutcome)
    requires st.selected.Some? && ResponseOk(outcome)
    ensures var r := FinishPredict(HandleFileChange(StartPredict(st), Some(other)), st.selected.value, outcome);
            r.selected == Some(other)
            && r.result == Some(outcome.response.body)
            && r.history[0].image == st.selected.value
  {
  }

  // ---------------------------------------------------------------------
  // Sessions
  // ---------------------------------------------------------------------

  /**
   * The card together with the requests still in flight, each remembered
   * by the file its click captured. The Predict button is never disabled,
   * so several requests can be in flight at once, and they may settle in
   * any order.
   */
  datatype Session = Session(ui: UiState, inFlight: seq<File>)

  /** A freshly mounted card with no request in flight. */
  const Mounted: Session := Session(Initial, [])

  /**
   * What happens: the user chooses files in the dialog, drops files, or
   * clicks Predict; or the request at position `request` of those in
   * flight settles with `outcome`.
   */
  datatype Event =
    | Choose(files: seq<File>)
    | DropFiles(dropped: seq<File>)
    | Click
    | Settle(request: nat, outcome: FetchOutcome)

  /**
   * One event. Choosing or dropping files touches only the selection and
   * the result; only a click adds a request, and a settling request is
   * removed. Every event keeps `LoadingHasRequest`.
   */
  function Step(s: Session, ev: Event): (r: Session)
    ensures (ev.Choose? || ev.DropFiles?) ==>
              r.inFlight == s.inFlight && r.ui.loading == s.ui.loading && r.ui.history == s.ui.history
    ensures !ev.Click? ==> |r.inFlight| <= |s.inFlight|
    ensures |r.inFlight| <= |s.inFlight| + 1
    ensures LoadingHasRequest(s) ==> LoadingHasRequest(r)
  {
    match ev
    case Choose(files) => s.(ui := HandleInputChange(s.ui, files))
    case DropFiles(dropped) => s.(ui := HandleDrop(s.ui, dropped))
    case Click =>
      if s.ui.selected.None? then s
      else Session(StartPredict(s.ui), s.inFlight + [s.ui.selected.value])
    case Settle(k, outcome) =>
      if k < |s.inFlight| then
        Session(FinishPredict(s.ui, s.inFlight[k], outcome), s.inFlight[..k] + s.inFlight[k + 1..])
      else s
  }

  /** A sequence of events, in order. Each event adds at most one request, and only a click adds one. */
  function Run(s: Session, evs: seq<Event>): (r: Session)
    ensures |r.inFlight| <= |s.inFlight| + |evs|
    ensures (forall i :: 0 <= i < |evs| ==> !evs[i].Click?) ==> |r.inFlight| <= |s.inFlight|
    decreases |evs|
  {
    if |evs| == 0 then s else Run(Step(s, evs[0]), evs[1..])
  }

  /** A click with a file selected sets `loading` and sends a request for that file; nothing else changes. */
  lemma ClickSendsRequest(s: Session)
    requires s.ui.selected.Some?
    ensures Step(s, Click).ui == s.ui.(loading := true)
    ensures Step(s, Click).inFlight == s.inFlight + [s.ui.selected.value]
  {
  }

  /** While the card shows "Predicting..." some request is in flight. */
  predicate LoadingHasRequest(s: Session) {
    s.ui.loading ==> |s.inFlight| > 0
  }

  lemma {:induction false} RunKeepsLoadingHasRequest(s: Session, evs: seq<Event>)
    requires LoadingHasRequest(s)
    ensures LoadingHasRequest(Run(s, evs))
    decreases |evs|
  {
    if |evs| > 0 {
      RunKeepsLoadingHasRequest(Step(s, evs[0]), evs[1..]);
    }
  }

  /**
   * The converse fails: with two requests in flight, the first to settle
   * clears `loading` while the other is still in flight.
   */
  lemma OverlapClearsLoading(s: Session, k: nat, outcome: FetchOutcome)
    requires |s.inFlight| >= 2 && k < |s.inFlight|
    ensures !Step(s, Settle(k, outcome)).ui.loading
    ensures |Step(s, Settle(k, outcome)).inFlight| == |s.inFlight| - 1 >= 1
  {
  }

  /** A click whose request settles before anything else happens is `handlePredict` as a whole. */
  lemma ClickThenSettle(st: UiState, outcome: FetchOutcome)
    ensures Run(Session(st, []), [Click, Settle(0, outcome)]) == Session(HandlePredict(st, outcome), [])
  {
    var evs := [Click, Settle(0, outcome)];
    var s1 := Step(Session(st, []), Click);
    assert Run(Session(st, []), evs) == Run(s1, [Settle(0, outcome)]) by {
      assert evs[1..] == [Settle(0, outcome)];
    }
    assert Run(s1, [Settle(0, outcome)]) == Step(s1, Settle(0, outcome)) by {
      assert [Settle(0, outcome)][1..] == [];
    }
    if st.selected.Some? {
      assert s1.inFlight == [st.selected.value];
      assert [st.selected.value][..0] + [st.selected.value][1..] == [];
    }
  }

  /** The upload an event records, if any: a request that settles with an `ok` answer. */
  function Recorded(s: Session, ev: Event): (e: seq<HistoryEntry>)
    ensures |e| <= 1
  {
    if ev.Settle? && ev.request < |s.inFlight| && ResponseOk(ev.outcome) then
      [HistoryEntry(s.inFlight[ev.request], ev.outcome.response.body)]
    else []
  }

  /** Every upload a session records, in the order the answers arrive. */
  function Uploads(s: Session, evs: seq<Event>): seq<HistoryEntry>
    decreases |evs|
  {
    if |evs| == 0 then [] else Recorded(s, evs[0]) + Uploads(Step(s, evs[0]), evs[1..])
  }

  function Reverse<T>(s: seq<T>): (r: seq<T>)
    ensures |r| == |s|
    ensures forall i :: 0 <= i < |s| ==> r[i] == s[|s| - 1 - i]
  {
    if |s| == 0 then [] else Reverse(s[1..]) + [s[0]]
  }

  lemma TakeOfTake<T>(s: seq<T>, m: nat, n: nat)
    requires n <= m
    ensures Take(Take(s, m), n) == Take(s, n)
  {
  }

  /** One step of the history keeps it the newest-first window over everything recorded. */
  lemma StepHistory(s: Session, ev: Event, older: seq<HistoryEntry>)
    requires s.ui.history == Take(older, HistoryCap)
    ensures Step(s, ev).ui.history == Take(Recorded(s, ev) + older, HistoryCap)
  {
    if Recorded(s, ev) != [] {
      var e := Recorded(s, ev)[0];
      TakeOfTake(older, HistoryCap, HistoryCap - 1);
      assert Step(s, ev).ui.history == [e] + Take(older, HistoryCap - 1);
      assert ([e] + older)[1..] == older;
    }
  }

  lemma ReverseAppend<T>(a: seq<T>, b: seq<T>)
    ensures Reverse(a + b) == Reverse(b) + Reverse(a)
  {
    assert forall i :: 0 <= i < |a + b| ==> Reverse(a + b)[i] == (Reverse(b) + Reverse(a))[i];
  }

  /**
   * Over any session the history is the latest recorded uploads, the last
   * to arrive first, followed by the earlier history and cut at five. The
   * order is that of the answers, not of the clicks.
   */
  lemma {:induction false} RunHistory(s: Session, evs: seq<Event>, older: seq<HistoryEntry>)
    requires s.ui.history == Take(older, HistoryCap)
    ensures Run(s, evs).ui.history == Take(Reverse(Uploads(s, evs)) + older, HistoryCap)
    ensures |Run(s, evs).ui.history| <= HistoryCap
    decreases |evs|
  {
    if |evs| > 0 {
      var next := Step(s, evs[0]);
      var rec := Recorded(s, evs[0]);
      StepHistory(s, evs[0], older);
      RunHistory(next, evs[1..], rec + older);
      PrependRecorded(rec, Uploads(next, evs[1..]), older);
    }
  }

  /** Recording at most one upload and then more later is the same as recording them all at once. */
  lemma PrependRecorded(rec: seq<HistoryEntry>, later: seq<HistoryEntry>, older: seq<HistoryEntry>)
    requires |rec| <= 1
    ensures Reverse(later) + (rec + older) == Reverse(rec + later) + older
  {
    ReverseAppend(rec, later);
    assert Reverse(rec) == rec;
  }

  /** From a freshly mounted card, the history is the last five uploads to arrive, newest arrival first. */
  lemma SessionHistory(evs: seq<Event>)
    ensures Run(Mounted, evs).ui.history == Take(Reverse(Uploads(Mounted, evs)), HistoryCap)
    ensures |Run(Mounted, evs).ui.history| <= HistoryCap
  {
    RunHistory(Mounted, evs, []);
    assert Reverse(Uploads(Mounted, evs)) + [] == Reverse(Uploads(Mounted, evs));
  }

  /**
   * Two requests in flight, for `a` clicked before `b`, that settle in the
   * reverse order: the history lists `a` first, because its answer came
   * last.
   */
  lemma ArrivalOrdersHistory(st: UiState, a: File, b: File, oa: FetchOutcome, ob: FetchOutcome)
    requires ResponseOk(oa) && ResponseOk(ob)
    ensures var t := Run(Session(st, [a, b]), [Settle(1, ob), Settle(0, oa)]);
            |t.ui.history| >= 2
            && t.ui.history[0] == HistoryEntry(a, oa.response.body)
            && t.ui.history[1] == HistoryEntry(b, ob.response.body)
            && t.inFlight == []
  {
    var evs := [Settle(1, ob), Settle(0, oa)];
    var s0 := Session(st, [a, b]);
    var s1 := Step(s0, Settle(1, ob));
    assert s1.inFlight == [a] by {
      assert [a, b][..1] + [a, b][2..] == [a];
    }
    var s2 := Step(s1, Settle(0, oa));
    assert s2.inFlight == [] by {
      assert [a][..0] + [a][1..] == [];
    }
    assert s2.ui.history == PushHistory(HistoryEntry(a, oa.response.body), s1.ui.history);
    assert Run(s0, evs) == Run(s1, [Settle(0, oa)]) by {
      assert evs[1..] == [Settle(0, oa)];
    }
    assert Run(s1, [Settle(0, oa)]) == s2 by {
      assert [Settle(0, oa)][1..] == [];
    }
  }
}

/** The installation queue of the admin page (script.js): the rows of the
    plugin table with their checkboxes and status badges, the log box, the
    start button, and the handler that walks the checked rows one request at
    a time. The asynchronous `$.post` is split at its callback: `Start` runs
    the click handler up to the first request, and each server response is
    delivered by a call to `Respond`, which runs the callback and the next
    `processPlugin`. */
module Queue {
  import opened Installer

  /** The badge of a row: `status-waiting`, `-working`, `-success`, `-error`. */
  datatype Status = Waiting | Working | Completed | Errored

  /** One `$.post` to `wpp_install_plugin`. */
  datatype Request = Request(slug: string, activate: bool)

  /** A line of `#wpp-log`. `Succeeded` is the green line with a check mark,
      `Failed` the red one with a cross; both carry the slug and `response.data`. */
  datatype LogLine =
    | Welcome
    | Starting(count: nat)
    | Processing(slug: string)
    | Succeeded(slug: string, data: string)
    | Failed(slug: string, data: string)
    | Processed

  /** The start button's text. */
  datatype Label = StartSelected | Installing | Finished

  /** Before the click, while a request is outstanding, after the last response. */
  datatype Phase = Idle | Running | Done

  predicate Terminal(s: Status)
  {
    s == Completed || s == Errored
  }

  /** The only badge changes the page makes. */
  predicate CanFollow(before: Status, after: Status)
  {
    before == after || (before == Waiting && after == Working) || (before == Working && Terminal(after))
  }

  /** Every badge of `after` can follow the one of `before` in the same row. */
  predicate Advanced(before: seq<Status>, after: seq<Status>)
  {
    |before| == |after| && forall i :: 0 <= i < |before| ==> CanFollow(before[i], after[i])
  }

  /** The badge a response settles a row to. */
  function Settled(r: Response): (s: Status)
    ensures Terminal(s) && (s == Completed <==> r.success)
  {
    if r.success then Completed else Errored
  }

  /** The log line a response produces. */
  function ResultLine(slug: string, r: Response): (line: LogLine)
    ensures line.Succeeded? <==> r.success
    ensures (line.Succeeded? || line.Failed?) && line.slug == slug && line.data == r.data
  {
    if r.success then Succeeded(slug, r.data) else Failed(slug, r.data)
  }

  predicate StrictlyIncreasing(q: seq<nat>)
  {
    forall i, j :: 0 <= i < j < |q| ==> q[i] < q[j]
  }

  /** The rows `$('.wpp-item').filter(...)` keeps: the checked ones, in display order. */
  function CheckedRows(checked: seq<bool>): (q: seq<nat>)
    ensures StrictlyIncreasing(q)
    ensures forall k :: 0 <= k < |q| ==> q[k] < |checked| && checked[q[k]]
    ensures forall i :: 0 <= i < |checked| && checked[i] ==> i in q
  {
    if checked == [] then []
    else
      var n := |checked| - 1;
      var init := checked[..n];
      assert forall i :: 0 <= i < n ==> init[i] == checked[i];
      CheckedRows(init) + (if checked[n] then [n] else [])
  }

  /** The slugs of the queued rows. */
  function SlugsOf(rows: seq<string>, q: seq<nat>): (s: seq<string>)
    requires forall k :: 0 <= k < |q| ==> q[k] < |rows|
    ensures |s| == |q| && forall k :: 0 <= k < |q| ==> s[k] == rows[q[k]]
  {
    seq(|q|, k requires 0 <= k < |q| => rows[q[k]])
  }

  /** The log after the start line and the first |results| items have been answered. */
  function RunLog(slugs: seq<string>, results: seq<Response>): seq<LogLine>
    requires |results| <= |slugs|
  {
    if results == [] then [Starting(|slugs|)]
    else
      var j := |results| - 1;
      RunLog(slugs, results[..j]) + [Processing(slugs[j]), ResultLine(slugs[j], results[j])]
  }

  /** The log alternates a "processing" line and a result line per item, in queue order. */
  lemma {:induction false} RunLogShape(slugs: seq<string>, results: seq<Response>)
    requires |results| <= |slugs|
    ensures var log := RunLog(slugs, results);
            |log| == 1 + 2 * |results| && log[0] == Starting(|slugs|)
            && forall k :: 1 <= k < |log| ==>
                 log[k] == if k % 2 == 1 then Processing(slugs[(k - 1) / 2])
                           else ResultLine(slugs[(k - 2) / 2], results[(k - 2) / 2])
  {
    if results != [] {
      var j := |results| - 1;
      RunLogShape(slugs, results[..j]);
    }
  }

  /** The coloured result lines of a log, in order. */
  function ResultLines(log: seq<LogLine>): seq<LogLine>
  {
    if log == [] then []
    else
      var last := log[|log| - 1];
      ResultLines(log[..|log| - 1]) + (if last.Succeeded? || last.Failed? then [last] else [])
  }

  lemma {:induction false} ResultLinesAppend(a: seq<LogLine>, b: seq<LogLine>)
    ensures ResultLines(a + b) == ResultLines(a) + ResultLines(b)
  {
    if b != [] {
      assert (a + b)[..|a + b| - 1] == a + b[..|b| - 1];
      ResultLinesAppend(a, b[..|b| - 1]);
    } else {
      assert a + b == a;
    }
  }

  /** One result line per answered item, in queue order, green exactly for a success. */
  function ExpectedResults(slugs: seq<string>, results: seq<Response>): seq<LogLine>
    requires |results| <= |slugs|
  {
    seq(|results|, j requires 0 <= j < |results| => ResultLine(slugs[j], results[j]))
  }

  lemma {:induction false} RunLogResults(slugs: seq<string>, results: seq<Response>)
    requires |results| <= |slugs|
    ensures ResultLines(RunLog(slugs, results)) == ExpectedResults(slugs, results)
  {
    if results == [] {
      assert [Starting(|slugs|)][..0] == [];
    } else {
      var j := |results| - 1;
      var pre := results[..j];
      var line := ResultLine(slugs[j], results[j]);
      var tail := [Processing(slugs[j]), line];
      RunLogResults(slugs, pre);
      ResultLinesAppend(RunLog(slugs, pre), tail);
      ProcessingThenResult(slugs[j], line);
      ExpectedResultsStep(slugs, results);
    }
  }

  lemma ProcessingThenResult(slug: string, line: LogLine)
    requires line.Succeeded? || line.Failed?
    ensures ResultLines([Processing(slug), line]) == [line]
  {
    var first := [Processing(slug)];
    assert first[..0] == [];
    assert ResultLines(first) == [];
    assert [Processing(slug), line][..1] == first;
  }

  lemma ExpectedResultsStep(slugs: seq<string>, results: seq<Response>)
    requires 0 < |results| <= |slugs|
    ensures var j := |results| - 1;
            ExpectedResults(slugs, results)
            == ExpectedResults(slugs, results[..j]) + [ResultLine(slugs[j], results[j])]
  {
    var j := |results| - 1;
    var l := ExpectedResults(slugs, results);
    var r := ExpectedResults(slugs, results[..j]) + [ResultLine(slugs[j], results[j])];
    forall k | 0 <= k < |l| ensures l[k] == r[k] {
      if k < j {
        assert results[..j][k] == results[k];
      }
    }
  }

  /** The badge of the `j`-th queued row once `results` have come back. */
  function QueuedStatus(j: nat, results: seq<Response>, running: bool): Status
  {
    if j < |results| then Settled(results[j])
    else if j == |results| && running then Working
    else Waiting
  }

  /** Queued rows exist and keep display order. */
  predicate QueueFits(queue: seq<nat>, n: nat)
  {
    (forall k :: 0 <= k < |queue| ==> queue[k] < n) && StrictlyIncreasing(queue)
  }

  /** The badges of all rows: queued rows as `QueuedStatus`, the rest waiting. */
  predicate Badges(st: seq<Status>, queue: seq<nat>, results: seq<Response>, running: bool)
  {
    && (forall j :: 0 <= j < |queue| ==> queue[j] < |st| && st[queue[j]] == QueuedStatus(j, results, running))
    && (forall i :: 0 <= i < |st| && i !in queue ==> st[i] == Waiting)
  }

  /** Request `j` was for the `j`-th queued row. */
  predicate SentInOrder(sent: seq<Request>, rows: seq<string>, queue: seq<nat>)
  {
    forall j :: 0 <= j < |sent| ==> j < |queue| && queue[j] < |rows| && sent[j].slug == rows[queue[j]]
  }

  lemma BadgesQueued(st: seq<Status>, queue: seq<nat>)
    requires QueueFits(queue, |st|)
    requires forall i :: 0 <= i < |st| ==> st[i] == Waiting
    ensures Badges(st, queue, [], false)
  {
  }

  lemma BadgesWork(st: seq<Status>, queue: seq<nat>, results: seq<Response>)
    requires QueueFits(queue, |st|) && |results| < |queue|
    requires Badges(st, queue, results, false)
    ensures Badges(st[queue[|results|] := Working], queue, results, true)
  {
    var c := |results|;
    var st' := st[queue[c] := Working];
    forall j | 0 <= j < |queue|
      ensures st'[queue[j]] == QueuedStatus(j, results, true)
    {
      if j < c { assert queue[j] < queue[c]; }
      if c < j { assert queue[c] < queue[j]; }
    }
  }

  lemma BadgesSettle(st: seq<Status>, queue: seq<nat>, results: seq<Response>, r: Response)
    requires QueueFits(queue, |st|) && |results| < |queue|
    requires Badges(st, queue, results, true)
    ensures Badges(st[queue[|results|] := Settled(r)], queue, results + [r], false)
  {
    var c := |results|;
    var st' := st[queue[c] := Settled(r)];
    forall j | 0 <= j < |queue|
      ensures st'[queue[j]] == QueuedStatus(j, results + [r], false)
    {
      if j < c { assert queue[j] < queue[c]; }
      if c < j { assert queue[c] < queue[j]; }
    }
  }

  /** Settling the outstanding row, and starting the next one if any, only move badges forward. */
  lemma RespondFollows(st: seq<Status>, after: seq<Status>, queue: seq<nat>, results: seq<Response>, r: Response)
    requires QueueFits(queue, |st|) && |results| < |queue|
    requires Badges(st, queue, results, true)
    requires var settled := st[queue[|results|] := Settled(r)];
             after == (if |results| + 1 < |queue| then settled[queue[|results| + 1] := Working] else settled)
    ensures Advanced(st, after)
  {
    var c := |results|;
    assert st[queue[c]] == QueuedStatus(c, results, true);
    if c + 1 < |queue| {
      assert st[queue[c + 1]] == QueuedStatus(c + 1, results, true);
      assert queue[c] < queue[c + 1];
    }
  }

  lemma RunLogStep(slugs: seq<string>, results: seq<Response>, r: Response)
    requires |results| < |slugs|
    ensures RunLog(slugs, results + [r])
         == RunLog(slugs, results) + [Processing(slugs[|results|]), ResultLine(slugs[|results|], r)]
  {
    assert (results + [r])[..|results|] == results;
  }

  // ---------------------------------------------------------------------
  // The page as a value, and what each handler does to it
  // ---------------------------------------------------------------------

  /** Everything the handlers read or write, besides the fixed row slugs. */
  datatype Page = Page(
    checked: seq<bool>, selectAll: bool, status: seq<Status>, log: seq<LogLine>,
    buttonText: Label, buttonDisabled: bool, selectionDisabled: bool,
    queue: seq<nat>, cursor: nat, phase: Phase, sent: seq<Request>, results: seq<Response>)

  /** The parts of the state every phase shares. */
  predicate Shape(rows: seq<string>, p: Page)
  {
    && |p.checked| == |rows| && |p.status| == |rows|
    && QueueFits(p.queue, |rows|)
    && |p.results| == p.cursor <= |p.queue|
    && SentInOrder(p.sent, rows, p.queue)
  }

  /** The states the page can be in between two events. */
  predicate PageValid(rows: seq<string>, p: Page)
  {
    && Shape(rows, p)
    && |p.sent| == p.cursor + (if p.phase == Running then 1 else 0)
    && Badges(p.status, p.queue, p.results, p.phase == Running)
    && match p.phase
       case Idle =>
         p.queue == [] && p.log == [Welcome] && p.buttonText == StartSelected
         && !p.buttonDisabled && !p.selectionDisabled
       case Running =>
         p.cursor < |p.queue| && p.buttonText == Installing && p.buttonDisabled && p.selectionDisabled
         && p.log == RunLog(SlugsOf(rows, p.queue), p.results) + [Processing(rows[p.queue[p.cursor]])]
       case Done =>
         p.queue != [] && p.cursor == |p.queue| && p.buttonText == Finished
         && p.buttonDisabled && p.selectionDisabled
         && p.log == RunLog(SlugsOf(rows, p.queue), p.results) + [Processed]
  }

  /** The state in which `processPlugin(cursor)` is called: every item
      before the cursor answered, none outstanding. */
  predicate BetweenItems(rows: seq<string>, p: Page)
  {
    && Shape(rows, p)
    && p.queue != [] && |p.sent| == p.cursor
    && Badges(p.status, p.queue, p.results, false)
    && p.buttonText == Installing && p.buttonDisabled && p.selectionDisabled
    && p.log == RunLog(SlugsOf(rows, p.queue), p.results)
  }

  /** The page as rendered: every row checked and waiting, select-all
      checked, the welcome line in the log. */
  function Rendered(rows: seq<string>): (p: Page)
    ensures PageValid(rows, p) && p.phase == Idle && p.selectAll
    ensures forall i :: 0 <= i < |rows| ==> p.checked[i] && p.status[i] == Waiting
  {
    Page(seq(|rows|, _ => true), true, seq(|rows|, _ => Waiting), [Welcome],
         StartSelected, false, false, [], 0, Idle, [], [])
  }

  /** `#wpp-select-all` changed to `on`. */
  function SelectAll(rows: seq<string>, p: Page, on: bool): (q: Page)
    requires PageValid(rows, p)
    ensures PageValid(rows, q)
    ensures |q.checked| == |p.checked| && forall i :: 0 <= i < |q.checked| ==> q.checked[i] == on
  {
    p.(selectAll := on, checked := seq(|p.checked|, _ => on))
  }

  /** The checkbox of row `i` changed to `on`. */
  function SetRow(rows: seq<string>, p: Page, i: nat, on: bool): (q: Page)
    requires PageValid(rows, p) && i < |rows|
    ensures PageValid(rows, q)
  {
    p.(checked := p.checked[i := on])
  }

  /** The cursor is inside the queue and names a row of the table. */
  predicate CursorOnRow(rows: seq<string>, p: Page)
  {
    p.cursor < |p.queue| && p.queue[p.cursor] < |rows| && |p.status| == |rows|
  }

  /** `processPlugin(cursor)`: finish, or start the cursor's item and post its request. */
  function ProcessNext(rows: seq<string>, p: Page, autoActivate: bool): Page
    requires p.cursor < |p.queue| ==> CursorOnRow(rows, p)
  {
    if p.cursor >= |p.queue| then
      p.(buttonText := Finished, log := p.log + [Processed], phase := Done)
    else
      var row := p.queue[p.cursor];
      p.(status := p.status[row := Working], log := p.log + [Processing(rows[row])],
         sent := p.sent + [Request(rows[row], autoActivate)], phase := Running)
  }

  /** From a state between items, `processPlugin` reaches a valid page:
      running exactly when the cursor is inside the queue, finished otherwise. */
  lemma ProcessNextValid(rows: seq<string>, p: Page, autoActivate: bool)
    requires BetweenItems(rows, p)
    ensures PageValid(rows, ProcessNext(rows, p, autoActivate))
    ensures ProcessNext(rows, p, autoActivate).phase == (if p.cursor < |p.queue| then Running else Done)
  {
    if p.cursor < |p.queue| {
      BadgesWork(p.status, p.queue, p.results);
    }
  }

  /** The click of `#wpp-start`, up to the first request: alert on an empty
      selection, otherwise lock the controls, snapshot the checked rows and
      start the first. */
  function Clicked(rows: seq<string>, p: Page, autoActivate: bool): (q: Page)
    requires PageValid(rows, p) && !p.buttonDisabled
    ensures PageValid(rows, q)
    ensures CheckedRows(p.checked) == [] ==> q == p
    ensures CheckedRows(p.checked) != [] ==>
              && q.queue == CheckedRows(p.checked) && q.cursor == 0 && q.phase == Running
              && q.checked == p.checked && q.selectAll == p.selectAll
              && q.buttonDisabled && q.selectionDisabled && q.buttonText == Installing
              && q.log == [Starting(|q.queue|), Processing(rows[q.queue[0]])]
              && q.sent == [Request(rows[q.queue[0]], autoActivate)]
              && q.status == p.status[q.queue[0] := Working]
  {
    var items := CheckedRows(p.checked);
    if items == [] then p
    else
      var locked := Locked(rows, p, items);
      ProcessNextValid(rows, locked, autoActivate);
      ProcessNext(rows, locked, autoActivate)
  }

  /** The click handler's first lines: controls disabled, the log replaced
      by the start line, the checked rows snapshotted as the queue. */
  function Locked(rows: seq<string>, p: Page, items: seq<nat>): (q: Page)
    requires PageValid(rows, p) && p.phase == Idle
    requires items != [] && QueueFits(items, |rows|)
    ensures BetweenItems(rows, q)
  {
    BadgesQueued(p.status, items);
    p.(buttonDisabled := true, buttonText := Installing, selectionDisabled := true,
       log := [Starting(|items|)], queue := items, cursor := 0, results := [])
  }

  /** The callback's own work: the outstanding row's badge and log line. */
  function SettleCurrent(rows: seq<string>, p: Page, response: Response): Page
    requires CursorOnRow(rows, p)
  {
    var row := p.queue[p.cursor];
    p.(status := p.status[row := Settled(response)], log := p.log + [ResultLine(rows[row], response)],
       results := p.results + [response], cursor := p.cursor + 1)
  }

  /** Settling the outstanding request of a running page leaves a state
      between items: the answered prefix grew by the response. */
  lemma SettleCurrentBetween(rows: seq<string>, p: Page, response: Response)
    requires PageValid(rows, p) && p.phase == Running
    ensures BetweenItems(rows, SettleCurrent(rows, p, response))
  {
    BadgesSettle(p.status, p.queue, p.results, response);
    RunLogStep(SlugsOf(rows, p.queue), p.results, response);
  }

  /** A response to the outstanding request: settle it, then
      `processPlugin(index + 1)`, whatever the response said. */
  function Responded(rows: seq<string>, p: Page, response: Response, autoActivate: bool): (q: Page)
    requires PageValid(rows, p) && p.phase == Running
    ensures PageValid(rows, q)
    ensures q.queue == p.queue && q.cursor == p.cursor + 1 && q.results == p.results + [response]
    ensures q.phase == (if q.cursor < |q.queue| then Running else Done)
  {
    var settled := SettleCurrent(rows, p, response);
    SettleCurrentBetween(rows, p, response);
    ProcessNextValid(rows, settled, autoActivate);
    ProcessNext(rows, settled, autoActivate)
  }

  /** What a response changes: the outstanding row takes the response's
      badge, the next row (if any) starts working, no badge moves backwards,
      and the log gains the result line followed by the next "processing"
      line or the closing line. */
  lemma RespondedEffect(rows: seq<string>, p: Page, response: Response, autoActivate: bool)
    requires PageValid(rows, p) && p.phase == Running
    ensures var q := Responded(rows, p, response, autoActivate);
            var settled := p.status[p.queue[p.cursor] := Settled(response)];
            && q.status == (if q.phase == Running then settled[q.queue[q.cursor] := Working] else settled)
            && Advanced(p.status, q.status)
            && q.log == p.log + [ResultLine(rows[p.queue[p.cursor]], response)]
                              + (if q.phase == Running then [Processing(rows[q.queue[q.cursor]])] else [Processed])
            && q.sent == p.sent + (if q.phase == Running then [Request(rows[q.queue[q.cursor]], autoActivate)] else [])
  {
    var q := Responded(rows, p, response, autoActivate);
    RespondFollows(p.status, q.status, p.queue, p.results, response);
  }

  /** The page after one response per remaining item, or as far as the
      responses go. `activates[k]` is `#wpp-auto-activate` when the k-th
      response arrives: each `processPlugin` call reads it afresh. */
  function AnswerAll(rows: seq<string>, p: Page, responses: seq<Response>, activates: seq<bool>): Page
    requires PageValid(rows, p) && |activates| == |responses|
    decreases |responses|
  {
    if p.phase != Running || responses == [] then p
    else AnswerAll(rows, Responded(rows, p, responses[0], activates[0]), responses[1..], activates[1..])
  }

  /** One response per remaining item, successes and failures alike, runs
      the queue to its end, recording every response in order. */
  lemma {:induction false} AnswerAllFinishes(rows: seq<string>, p: Page, responses: seq<Response>, activates: seq<bool>)
    requires PageValid(rows, p) && p.phase == Running
    requires |responses| == |p.queue| - p.cursor && |activates| == |responses|
    ensures var q := AnswerAll(rows, p, responses, activates);
            PageValid(rows, q) && q.phase == Done && q.queue == p.queue && q.results == p.results + responses
    decreases |responses|
  {
    var next := Responded(rows, p, responses[0], activates[0]);
    AppendFirst(p.results, responses);
    if |responses| > 1 {
      AnswerAllFinishes(rows, next, responses[1..], activates[1..]);
    }
  }

  /** The auto-activate flags of the posted requests, in posting order. */
  function Flags(sent: seq<Request>): (r: seq<bool>)
    ensures |r| == |sent| && forall j :: 0 <= j < |sent| ==> r[j] == sent[j].activate
  {
    if sent == [] then [] else Flags(sent[..|sent| - 1]) + [sent[|sent| - 1].activate]
  }

  /** A response posts the next request, if any, with the flag read at
      that moment. */
  lemma RespondedFlags(rows: seq<string>, p: Page, response: Response, autoActivate: bool)
    requires PageValid(rows, p) && p.phase == Running
    ensures var q := Responded(rows, p, response, autoActivate);
            Flags(q.sent) == Flags(p.sent) + (if q.phase == Running then [autoActivate] else [])
  {
    RespondedEffect(rows, p, response, autoActivate);
  }

  /** Each request posted while the remaining items are answered carries
      the flag read when the previous response arrived. */
  lemma {:induction false} AnswerAllFlags(rows: seq<string>, p: Page, responses: seq<Response>, activates: seq<bool>)
    requires PageValid(rows, p) && p.phase == Running
    requires |responses| == |p.queue| - p.cursor && |activates| == |responses|
    ensures Flags(AnswerAll(rows, p, responses, activates).sent) == Flags(p.sent) + activates[..|responses| - 1]
    decreases |responses|
  {
    var next := Responded(rows, p, responses[0], activates[0]);
    RespondedFlags(rows, p, responses[0], activates[0]);
    var q := AnswerAll(rows, p, responses, activates);
    assert q == AnswerAll(rows, next, responses[1..], activates[1..]);
    if |responses| > 1 {
      AnswerAllFlags(rows, next, responses[1..], activates[1..]);
      FlagsPrefix(Flags(p.sent), activates, |responses| - 1);
    } else {
      assert responses[1..] == [];
      assert activates[..0] == [];
    }
  }

  lemma FlagsPrefix(f: seq<bool>, a: seq<bool>, n: nat)
    requires 0 < n <= |a|
    ensures (f + [a[0]]) + a[1..][..n - 1] == f + a[..n]
  {
    assert a[..n] == [a[0]] + a[1..][..n - 1];
  }

  lemma AppendFirst<T>(a: seq<T>, s: seq<T>)
    requires s != []
    ensures (a + [s[0]]) + s[1..] == a + s
    ensures |s| == 1 ==> a + [s[0]] == a + s
  {
    assert [s[0]] + s[1..] == s;
  }

  // ---------------------------------------------------------------------
  // The page object
  // ---------------------------------------------------------------------

  /** The plugin table, the log box and the start button of one page load. */
  class InstallerPage {
    const rows: seq<string>             // data-slug of each .wpp-item, in display order
    var checked: array<bool>            // .wpp-plugin-select
    var selectAll: bool                 // #wpp-select-all
    var status: array<Status>           // .wpp-status
    var log: seq<LogLine>               // #wpp-log
    var buttonText: Label               // #wpp-start
    var buttonDisabled: bool
    var selectionDisabled: bool         // .wpp-plugin-select and #wpp-select-all
    var queue: seq<nat>                 // the rows `items` holds, fixed at the click
    var cursor: nat                     // `index` of processPlugin
    var phase: Phase
    var sent: seq<Request>              // the requests posted so far
    ghost var results: seq<Response>    // the responses received so far

    ghost function View(): Page
      reads this, checked, status
    {
      Page(checked[..], selectAll, status[..], log, buttonText, buttonDisabled, selectionDisabled,
           queue, cursor, phase, sent, results)
    }

    ghost predicate Valid()
      reads this, checked, status
    {
      PageValid(rows, View())
    }

    constructor (rows: seq<string>)
      ensures this.rows == rows && fresh(checked) && fresh(status)
      ensures View() == Rendered(rows) && Valid()
    {
      this.rows := rows;
      checked := new bool[|rows|](_ => true);
      status := new Status[|rows|](_ => Waiting);
      selectAll := true;
      log := [Welcome];
      buttonText := StartSelected;
      buttonDisabled, selectionDisabled := false, false;
      queue, cursor, phase, sent := [], 0, Idle, [];
      results := [];
    }

    /** The change handler of `#wpp-select-all`. */
    method SelectAllChanged(on: bool)
      requires Valid() && !selectionDisabled
      modifies this`selectAll, checked
      ensures View() == SelectAll(rows, old(View()), on) && Valid()
    {
      selectAll := on;
      forall i | 0 <= i < checked.Length {
        checked[i] := on;
      }
    }

    /** The user ticks or clears one row's checkbox. */
    method RowChanged(i: nat, on: bool)
      requires Valid() && !selectionDisabled && i < |rows|
      modifies checked
      ensures View() == SetRow(rows, old(View()), i, on) && Valid()
    {
      checked[i] := on;
    }

    /** `processPlugin(cursor)`. */
    method ProcessPlugin(autoActivate: bool)
      requires cursor < |queue| ==> CursorOnRow(rows, View())
      modifies this`log, this`buttonText, this`phase, this`sent, status
      ensures View() == ProcessNext(rows, old(View()), autoActivate)
    {
      if cursor >= |queue| {
        buttonText := Finished;
        log := log + [Processed];
        phase := Done;
        return;
      }
      var row := queue[cursor];
      status[row] := Working;
      log := log + [Processing(rows[row])];
      sent := sent + [Request(rows[row], autoActivate)];
      phase := Running;
    }

    /** The click handler of `#wpp-start`. `autoActivate` is the state of
        `#wpp-auto-activate` when the first request is posted; `alerted`
        says that nothing was checked and the user was alerted instead. */
    method Start(autoActivate: bool) returns (alerted: bool)
      requires Valid() && !buttonDisabled
      modifies this, status
      ensures checked == old(checked) && status == old(status)
      ensures alerted <==> CheckedRows(old(checked[..])) == []
      ensures View() == Clicked(rows, old(View()), autoActivate) && Valid()
    {
      var items := CheckedRows(checked[..]);
      if |items| == 0 {
        return true;
      }
      alerted := false;
      ghost var before := View();
      buttonDisabled, buttonText := true, Installing;
      selectionDisabled := true;
      log := [Starting(|items|)];
      queue, cursor, results := items, 0, [];
      assert View() == Locked(rows, before, items);
      ProcessPlugin(autoActivate);
    }

    /** The body of the `$.post` callback before its `processPlugin(index + 1)`. */
    method Settle(response: Response)
      requires CursorOnRow(rows, View())
      modifies this`log, this`cursor, this`results, status
      ensures View() == SettleCurrent(rows, old(View()), response)
    {
      ghost var before := View();
      var row := queue[cursor];
      status[row] := Settled(response);
      log := log + [ResultLine(rows[row], response)];
      results := results + [response];
      cursor := cursor + 1;
      assert status[..] == before.status[row := Settled(response)];
      assert checked[..] == before.checked;
    }

    /** The `$.post` callback for the outstanding item. `autoActivate` is
        `#wpp-auto-activate` at that moment. */
    method Respond(response: Response, autoActivate: bool)
      requires Valid() && phase == Running
      modifies this`log, this`buttonText, this`phase, this`sent, this`cursor, this`results, status
      ensures View() == Responded(rows, old(View()), response, autoActivate) && Valid()
    {
      ghost var before := View();
      SettleCurrentBetween(rows, before, response);
      Settle(response);
      ProcessPlugin(autoActivate);
    }
  }

  // ---------------------------------------------------------------------
  // Properties of every reachable page
  // ---------------------------------------------------------------------

  /** At most one row is working, and one is exactly while a request is
      outstanding; a request is posted only after the previous one was answered. */
  lemma AtMostOneWorking(rows: seq<string>, p: Page)
    requires PageValid(rows, p)
    ensures forall i, j ::
              (0 <= i < |p.status| && 0 <= j < |p.status|
               && p.status[i] == Working && p.status[j] == Working) ==> i == j
    ensures (exists i :: 0 <= i < |p.status| && p.status[i] == Working) <==> p.phase == Running
    ensures |p.sent| == |p.results| + (if p.phase == Running then 1 else 0)
  {
    forall i | 0 <= i < |p.status| && p.status[i] == Working
      ensures p.phase == Running && i == p.queue[p.cursor]
    {
      assert i in p.queue;
      var j :| 0 <= j < |p.queue| && p.queue[j] == i;
      assert QueuedStatus(j, p.results, p.phase == Running) == Working;
    }
    if p.phase == Running {
      assert p.status[p.queue[p.cursor]] == QueuedStatus(p.cursor, p.results, true);
    }
  }

  /** While running, the rows before the cursor are settled, the cursor row
      is working and the rows after it still wait: items are taken strictly
      in queue order. */
  lemma RunningInOrder(rows: seq<string>, p: Page)
    requires PageValid(rows, p) && p.phase == Running
    ensures forall j :: 0 <= j < p.cursor ==> Terminal(p.status[p.queue[j]])
    ensures p.status[p.queue[p.cursor]] == Working
    ensures forall j :: p.cursor < j < |p.queue| ==> p.status[p.queue[j]] == Waiting
    ensures p.log[|p.log| - 1] == Processing(rows[p.queue[p.cursor]])
    ensures p.sent[|p.sent| - 1].slug == rows[p.queue[p.cursor]]
  {
    forall j | 0 <= j < |p.queue|
      ensures p.status[p.queue[j]] == QueuedStatus(j, p.results, true)
    {
    }
  }

  /** After the last response: every queued row settled by its own response,
      the log is the start line, a "processing" line and a result line per
      item in queue order, and the closing line; one request per item was
      posted, in order; the button reads "finished" and stays disabled. */
  lemma FinishedRun(rows: seq<string>, p: Page)
    requires PageValid(rows, p) && p.phase == Done
    ensures forall j :: 0 <= j < |p.queue| ==>
              Terminal(p.status[p.queue[j]]) && p.status[p.queue[j]] == Settled(p.results[j])
    ensures |p.log| == 2 * |p.queue| + 2
    ensures p.log[0] == Starting(|p.queue|) && p.log[|p.log| - 1] == Processed
    ensures ResultLines(p.log) == ExpectedResults(SlugsOf(rows, p.queue), p.results)
    ensures |p.sent| == |p.queue| && forall j :: 0 <= j < |p.sent| ==> p.sent[j].slug == rows[p.queue[j]]
    ensures p.buttonText == Finished && p.buttonDisabled
  {
    var slugs := SlugsOf(rows, p.queue);
    forall j | 0 <= j < |p.queue|
      ensures p.status[p.queue[j]] == Settled(p.results[j])
    {
      assert p.status[p.queue[j]] == QueuedStatus(j, p.results, false);
    }
    RunLogShape(slugs, p.results);
    RunLogResults(slugs, p.results);
    ResultLinesAppend(RunLog(slugs, p.results), [Processed]);
    assert [Processed][..0] == [];
    assert ResultLines([Processed]) == [];
  }

  /** A whole run: the click, then one response per checked item, successes
      and failures alike, finishes with every item answered in order,
      whatever `#wpp-auto-activate` reads at the click and at each step. */
  lemma WholeRun(rows: seq<string>, p: Page, clickActivate: bool, responses: seq<Response>, activates: seq<bool>)
    requires PageValid(rows, p) && p.phase == Idle
    requires |responses| == |CheckedRows(p.checked)| > 0 && |activates| == |responses|
    ensures var started := Clicked(rows, p, clickActivate);
            var q := AnswerAll(rows, started, responses, activates);
            && q.phase == Done && q.queue == CheckedRows(p.checked) && q.results == responses
            && ResultLines(q.log) == ExpectedResults(SlugsOf(rows, q.queue), responses)
  {
    var started := Clicked(rows, p, clickActivate);
    AnswerAllFinishes(rows, started, responses, activates);
    var q := AnswerAll(rows, started, responses, activates);
    assert started.results == [];
    FinishedRun(rows, q);
  }

  /** Over a whole run, the first request carries the flag read at the
      click, and each later one the flag read when the previous item's
      response arrived. */
  lemma WholeRunFlags(rows: seq<string>, p: Page, clickActivate: bool, responses: seq<Response>, activates: seq<bool>)
    requires PageValid(rows, p) && p.phase == Idle
    requires |responses| == |CheckedRows(p.checked)| > 0 && |activates| == |responses|
    ensures var started := Clicked(rows, p, clickActivate);
            Flags(AnswerAll(rows, started, responses, activates).sent) == [clickActivate] + activates[..|responses| - 1]
  {
    var started := Clicked(rows, p, clickActivate);
    AnswerAllFlags(rows, started, responses, activates);
    assert Flags(started.sent) == [clickActivate];
  }
}

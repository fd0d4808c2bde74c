/**
 * How the task list fills itself when the task type changes. There are two list
 * buffers; a new catalogue is built into the one not shown, a batch at a time, and
 * the buffers swap right after the first batch. Work deferred to the event queue is
 * an explicit FIFO of continuations, run one per step.
 */
module Population {
  import opened Wrappers

  const BUFFER_COUNT: nat := 2

  /** A task panel: the draw that built it, and the index of its task in that catalogue. */
  datatype Panel = Panel(generation: nat, taskIndex: nat)

  /**
   * One call of `drawNewTaskType`: its task count, the task indices built so far, in
   * order, and for each task whether its new panel passes its filter, which the panel
   * constructor's `refresh` makes its visibility.
   */
  datatype Generation = Generation(taskCount: nat, built: seq<nat>, shown: seq<bool>)

  /**
   * The list `redraw` reads. It starts as a list of its own; once replaced it is the
   * very list a draw is still appending to, so later batches show up in it too.
   */
  datatype PanelList = Own(panels: seq<Panel>) | Alias(generation: nat)

  /** Work queued for later on the event thread. */
  datatype Continuation =
    | ProcessBatch(generation: nat, target: nat, batch: nat)
    | RefreshAll
    | ClearBuffer(buffer: nat)

  /**
   * The list state. The empty-list message is a single label shared by both buffers: a
   * buffer that adds it takes it from the other one. `emptyIn` is the buffer holding it,
   * if any, and `emptyVisible` its own visibility flag. `anyShown` says whether some
   * panel registered since the last draw began is visible; `refreshEmptyPanel` reads it.
   */
  datatype State = State(
    current: nat,
    visible: seq<bool>,
    contents: seq<seq<Panel>>,
    generations: seq<Generation>,
    taskPanels: PanelList,
    batchSize: int,
    queue: seq<Continuation>,
    emptyIn: Option<nat>,
    emptyVisible: bool,
    anyShown: bool,
    refreshes: nat)

  predicate ContinuationValid(st: State, c: Continuation)
  {
    match c
    case ProcessBatch(g, t, _) => g < |st.generations| && t < BUFFER_COUNT
    case RefreshAll => true
    case ClearBuffer(b) => b < BUFFER_COUNT
  }

  predicate Valid(st: State)
  {
    && |st.visible| == BUFFER_COUNT
    && |st.contents| == BUFFER_COUNT
    && st.current < BUFFER_COUNT
    && (forall i :: 0 <= i < |st.queue| ==> ContinuationValid(st, st.queue[i]))
    && (st.taskPanels.Alias? ==> st.taskPanels.generation < |st.generations|)
    && (st.emptyIn.Some? ==> st.emptyIn.value < BUFFER_COUNT)
  }

  /** Exactly one buffer is shown, and it is the current one. */
  predicate OneVisible(st: State)
    requires Valid(st)
  {
    st.visible[st.current] && !st.visible[1 - st.current]
  }

  /** The empty-list message is on screen: its label is visible inside the shown buffer. */
  predicate EmptyMessageSeen(st: State)
    requires Valid(st)
  {
    st.emptyIn == Some(st.current) && st.emptyVisible && st.visible[st.current]
  }

  /**
   * The constructor: two empty buffers, both visible (a new panel is visible, and
   * selecting buffer 0 while it is already current changes nothing). Each buffer adds
   * the hidden empty-list label in turn, so it ends up in the last one.
   */
  function Init(batchSize: int): (r: State)
    ensures Valid(r) && r.current == 0 && r.queue == []
    ensures r.visible == [true, true] && !OneVisible(r)
    ensures r.emptyIn == Some(BUFFER_COUNT - 1) && !EmptyMessageSeen(r)
  {
    State(0, [true, true], [[], []], [], Own([]), batchSize, [], Some(BUFFER_COUNT - 1), false, false, 0)
  }

  /** `getNextBufferIndex`: the other buffer, round robin. */
  function NextBufferIndex(st: State): (r: nat)
    requires Valid(st)
    ensures r < BUFFER_COUNT && r != st.current
    ensures r == (st.current + 1) % BUFFER_COUNT
  {
    (st.current + 1) % BUFFER_COUNT
  }

  /**
   * `setCurrentTaskListListPanel`: selecting the current buffer changes nothing;
   * selecting the other hides the current one and shows the new one.
   */
  function SetCurrent(st: State, index: nat): (r: State)
    requires Valid(st) && index < BUFFER_COUNT
    ensures Valid(r) && r.current == index
    ensures index == st.current ==> r == st
    ensures index != st.current ==>
      && r.visible == st.visible[st.current := false][index := true]
      && OneVisible(r)
    ensures r.(current := st.current, visible := st.visible) == st
  {
    if index != st.current then st.(visible := st.visible[st.current := false][index := true], current := index)
    else st
  }

  function Enqueue(st: State, c: Continuation): (r: State)
    requires Valid(st) && ContinuationValid(st, c)
    ensures Valid(r) && r.queue == st.queue + [c] && r.(queue := st.queue) == st
  {
    st.(queue := st.queue + [c])
  }

  /** `showNextTaskListListPanel`: swaps to the other buffer and queues emptying the old one. */
  function ShowNext(st: State): (r: State)
    requires Valid(st)
    ensures Valid(r) && OneVisible(r)
    ensures r.current == NextBufferIndex(st)
    ensures r.queue == st.queue + [ClearBuffer(st.current)]
    ensures r.(current := st.current, visible := st.visible, queue := st.queue) == st
    ensures NextBufferIndex(r) == st.current
  {
    var previous := st.current;
    Enqueue(SetCurrent(st, NextBufferIndex(st)), ClearBuffer(previous))
  }

  /** The task indices `lo`, `lo + 1`, ..., `hi - 1`. */
  function Range(lo: nat, hi: nat): (r: seq<nat>)
    ensures |r| == if lo <= hi then hi - lo else 0
    ensures forall i :: 0 <= i < |r| ==> r[i] == lo + i
  {
    if lo >= hi then [] else seq(hi - lo, i requires 0 <= i < hi - lo => lo + i)
  }

  lemma RangeAppend(a: nat, b: nat, c: nat)
    requires a <= b <= c
    ensures Range(a, b) + Range(b, c) == Range(a, c)
  {
    assert forall i :: 0 <= i < c - a ==> (Range(a, b) + Range(b, c))[i] == a + i;
  }

  function PanelsOf(g: nat, indices: seq<nat>): (r: seq<Panel>)
    ensures |r| == |indices| && forall i :: 0 <= i < |r| ==> r[i] == Panel(g, indices[i])
  {
    seq(|indices|, i requires 0 <= i < |indices| => Panel(g, indices[i]))
  }

  /** The panels for tasks `lo` up to `hi` of draw `g`, in order. */
  function PanelRange(g: nat, lo: nat, hi: nat): (r: seq<Panel>)
    ensures |r| == if lo <= hi then hi - lo else 0
    ensures forall i :: 0 <= i < |r| ==> r[i] == Panel(g, lo + i)
    decreases hi - lo
  {
    if lo >= hi then [] else [Panel(g, lo)] + PanelRange(g, lo + 1, hi)
  }

  lemma PanelsOfRange(g: nat, lo: nat, hi: nat)
    ensures PanelsOf(g, Range(lo, hi)) == PanelRange(g, lo, hi)
  {
  }

  /** Appending the panels of two adjacent ranges appends the panels of their union. */
  lemma {:induction false} JoinPanels(x: seq<Panel>, g: nat, a: nat, b: nat, c: nat)
    requires a <= b <= c
    ensures (x + PanelRange(g, a, b)) + PanelRange(g, b, c) == x + PanelRange(g, a, c)
    decreases b - a
  {
    if a < b {
      JoinPanels(x + [Panel(g, a)], g, a + 1, b, c);
      assert x + [Panel(g, a)] + PanelRange(g, a + 1, b) == x + PanelRange(g, a, b);
      assert x + [Panel(g, a)] + PanelRange(g, a + 1, c) == x + PanelRange(g, a, c);
    }
  }

  /** Two runs of panels appended one after the other are one run. */
  lemma ChainPanels(x: seq<Panel>, y: seq<Panel>, z: seq<Panel>, g: nat, a: nat, b: nat, c: nat)
    requires a <= b <= c
    requires y == x + PanelRange(g, a, b) && z == y + PanelRange(g, b, c)
    ensures z == x + PanelRange(g, a, c)
  {
    JoinPanels(x, g, a, b, c);
  }

  /** Appending the panel of task `lo` and then those after it appends the whole range. */
  lemma PanelRangeCons(x: seq<Panel>, g: nat, lo: nat, hi: nat)
    requires lo < hi
    ensures (x + [Panel(g, lo)]) + PanelRange(g, lo + 1, hi) == x + PanelRange(g, lo, hi)
  {
  }

  function Min(a: int, b: int): int
  {
    if a <= b then a else b
  }

  /** Some task in `lo` up to `hi` has a new panel that passes its filter. */
  predicate AnyShown(shown: seq<bool>, lo: int, hi: int)
    decreases hi - lo
  {
    lo < hi && ((0 <= lo < |shown| && shown[lo]) || AnyShown(shown, lo + 1, hi))
  }

  lemma {:induction false} AnyShownIff(shown: seq<bool>, lo: int, hi: int)
    ensures AnyShown(shown, lo, hi) <==> exists i :: lo <= i < hi && 0 <= i < |shown| && shown[i]
    decreases hi - lo
  {
    if lo < hi {
      AnyShownIff(shown, lo + 1, hi);
    }
  }

  /**
   * The body passed to `processInBatches`: adds a panel for task `pos` to the target
   * buffer and to the draw's list, and makes that list the one `redraw` reads exactly
   * when `pos` is `batchSize - 1`.
   */
  function Accept(st: State, gen: nat, target: nat, pos: nat): (r: State)
    requires Valid(st) && gen < |st.generations| && target < BUFFER_COUNT
    ensures Valid(r)
    ensures r.generations == st.generations[gen := st.generations[gen].(built := st.generations[gen].built + [pos])]
    ensures r.contents == st.contents[target := st.contents[target] + [Panel(gen, pos)]]
    ensures r.taskPanels == if pos == st.batchSize - 1 then Alias(gen) else st.taskPanels
    ensures r.(generations := st.generations, contents := st.contents, taskPanels := st.taskPanels) == st
  {
    var g := st.generations[gen];
    st.(generations := st.generations[gen := g.(built := g.built + [pos])],
        contents := st.contents[target := st.contents[target] + [Panel(gen, pos)]],
        taskPanels := if pos == st.batchSize - 1 then Alias(gen) else st.taskPanels)
  }

  /**
   * The loop of `processBatch` from slot `index` on, where `base` is the batch number
   * times the batch size: stops at the batch size or at the last task.
   */
  function AcceptBatch(st: State, gen: nat, target: nat, base: int, index: nat): (r: State)
    requires Valid(st) && gen < |st.generations| && target < BUFFER_COUNT
    ensures Valid(r)
    ensures |r.generations| == |st.generations|
    ensures forall g :: 0 <= g < |st.generations| && g != gen ==> r.generations[g] == st.generations[g]
    ensures r.generations[gen].taskCount == st.generations[gen].taskCount
    ensures forall b :: 0 <= b < BUFFER_COUNT && b != target ==> r.contents[b] == st.contents[b]
    ensures r.(generations := st.generations, contents := st.contents, taskPanels := st.taskPanels) == st
    decreases if index < st.batchSize then st.batchSize - index else 0
  {
    if index >= st.batchSize then st
    else
      var pos := index + base;
      if 0 <= pos < st.generations[gen].taskCount then
        AcceptBatch(Accept(st, gen, target, pos), gen, target, base, index + 1)
      else st
  }

  lemma MulStep(b: nat, k: int)
    ensures (b + 1) * k == b * k + k
    ensures k > 0 && b >= 1 ==> b * k >= k
    ensures k <= 0 ==> (b + 1) * k <= 0
  {
  }

  lemma RangeCons(lo: nat, hi: nat)
    requires lo < hi
    ensures Range(lo, hi) == [lo] + Range(lo + 1, hi)
  {
  }

  /**
   * With a positive batch size k, the loop from slot `index` of the batch starting at
   * task `base` adds exactly the tasks from base + index up to min(base + k, n), in
   * increasing order, to the draw and to the target buffer; the list `redraw` reads
   * switches to the draw's list exactly when task k-1 is among them.
   */
  lemma AcceptBatchRange(st: State, gen: nat, target: nat, base: nat, index: nat)
    requires Valid(st) && gen < |st.generations| && target < BUFFER_COUNT
    requires st.batchSize > 0 && index <= st.batchSize
    ensures var k, n := st.batchSize, st.generations[gen].taskCount;
      var hi := Min(base + k, n);
      var lo := Min(base + index, hi);
      var r := AcceptBatch(st, gen, target, base, index);
      && r.generations[gen].built == st.generations[gen].built + Range(lo, hi)
      && r.contents[target] == st.contents[target] + PanelRange(gen, lo, hi)
      && r.taskPanels == if lo <= k - 1 < hi then Alias(gen) else st.taskPanels
  {
    BatchBuilt(st, gen, target, base, index);
    BatchContents(st, gen, target, base, index);
    BatchTaskPanels(st, gen, target, base, index);
  }

  lemma {:induction false} BatchBuilt(st: State, gen: nat, target: nat, base: nat, index: nat)
    requires Valid(st) && gen < |st.generations| && target < BUFFER_COUNT
    requires st.batchSize > 0 && index <= st.batchSize
    ensures var hi := Min(base + st.batchSize, st.generations[gen].taskCount);
      AcceptBatch(st, gen, target, base, index).generations[gen].built
        == st.generations[gen].built + Range(Min(base + index, hi), hi)
    decreases st.batchSize - index
  {
    var hi := Min(base + st.batchSize, st.generations[gen].taskCount);
    var pos := index + base;
    if index < st.batchSize && pos < st.generations[gen].taskCount {
      assert Min(base + index, hi) == pos && Min(base + index + 1, hi) == pos + 1;
      var st1 := Accept(st, gen, target, pos);
      BatchBuilt(st1, gen, target, base, index + 1);
      RangeCons(pos, hi);
      assert st1.generations[gen].built == st.generations[gen].built + [pos];
    } else {
      assert Min(base + index, hi) == hi;
      assert AcceptBatch(st, gen, target, base, index) == st;
    }
  }

  lemma {:induction false} BatchContents(st: State, gen: nat, target: nat, base: nat, index: nat)
    requires Valid(st) && gen < |st.generations| && target < BUFFER_COUNT
    requires st.batchSize > 0 && index <= st.batchSize
    ensures var hi := Min(base + st.batchSize, st.generations[gen].taskCount);
      AcceptBatch(st, gen, target, base, index).contents[target]
        == st.contents[target] + PanelRange(gen, Min(base + index, hi), hi)
    decreases st.batchSize - index
  {
    var hi := Min(base + st.batchSize, st.generations[gen].taskCount);
    var pos := index + base;
    if index < st.batchSize && pos < st.generations[gen].taskCount {
      assert Min(base + index, hi) == pos && Min(base + index + 1, hi) == pos + 1;
      var st1 := Accept(st, gen, target, pos);
      BatchContents(st1, gen, target, base, index + 1);
      PanelRangeCons(st.contents[target], gen, pos, hi);
    } else {
      assert Min(base + index, hi) == hi;
      assert AcceptBatch(st, gen, target, base, index) == st;
    }
  }

  lemma {:induction false} BatchTaskPanels(st: State, gen: nat, target: nat, base: nat, index: nat)
    requires Valid(st) && gen < |st.generations| && target < BUFFER_COUNT
    requires st.batchSize > 0 && index <= st.batchSize
    ensures var k := st.batchSize;
      var hi := Min(base + k, st.generations[gen].taskCount);
      var lo := Min(base + index, hi);
      AcceptBatch(st, gen, target, base, index).taskPanels == if lo <= k - 1 < hi then Alias(gen) else st.taskPanels
    decreases st.batchSize - index
  {
    var pos := index + base;
    if index < st.batchSize && pos < st.generations[gen].taskCount {
      BatchTaskPanels(Accept(st, gen, target, pos), gen, target, base, index + 1);
    }
  }

  /**
   * `processBatch`: the batch's loop; `refreshEmptyPanel`, which shows the empty-list
   * label exactly when no registered panel is visible; then the next batch queued when
   * tasks remain, otherwise a refresh of every row.
   */
  function RunBatch(st: State, gen: nat, target: nat, batch: nat): (r: State)
    requires Valid(st) && gen < |st.generations| && target < BUFFER_COUNT
    ensures Valid(r)
    ensures var n := st.generations[gen].taskCount;
      r.queue == st.queue + [if (batch + 1) * st.batchSize < n then ProcessBatch(gen, target, batch + 1) else RefreshAll]
    ensures r.current == st.current && r.visible == st.visible && r.batchSize == st.batchSize
    ensures |r.generations| == |st.generations| && r.generations[gen].taskCount == st.generations[gen].taskCount
    ensures forall b :: 0 <= b < BUFFER_COUNT && b != target ==> r.contents[b] == st.contents[b]
    ensures var g := st.generations[gen];
      r.anyShown == (st.anyShown || AnyShown(g.shown, batch * st.batchSize, Min((batch + 1) * st.batchSize, g.taskCount)))
    ensures r.emptyVisible <==> !r.anyShown
    ensures r.emptyIn == st.emptyIn
  {
    var g := st.generations[gen];
    var st0 := AcceptBatch(st, gen, target, batch * st.batchSize, 0);
    var shownNow := st.anyShown || AnyShown(g.shown, batch * st.batchSize, Min((batch + 1) * st.batchSize, g.taskCount));
    var st1 := st0.(anyShown := shownNow, emptyVisible := !shownNow);
    if (batch + 1) * st.batchSize < st.generations[gen].taskCount then Enqueue(st1, ProcessBatch(gen, target, batch + 1))
    else Enqueue(st1, RefreshAll)
  }

  /**
   * `drawNewTaskType`, as the list panel runs it, for a catalogue of `n` tasks whose new
   * panels pass their filters as `shown` says. It works on the buffer not shown, which
   * first takes the empty-list label, and forgets the registered panels. An empty
   * catalogue makes the label visible there and stops, with no swap. Otherwise the first
   * batch runs at once, its `refreshEmptyPanel` shows the label exactly when none of
   * its panels is visible, and the buffers swap straight after it.
   */
  function DrawNewTaskType(st: State, n: nat, shown: seq<bool>): (r: State)
    requires Valid(st) && |shown| == n
    ensures Valid(r)
    ensures r.emptyIn == Some(NextBufferIndex(st))
    ensures r.emptyVisible <==> forall i :: 0 <= i < Min(st.batchSize, n) ==> !shown[i]
    ensures n == 0 ==> r == st.(emptyIn := Some(NextBufferIndex(st)), emptyVisible := true, anyShown := false)
    ensures r.batchSize == st.batchSize
    ensures n > 0 ==>
      && |r.generations| == |st.generations| + 1
      && r.generations[|st.generations|].taskCount == n
      && r.current == NextBufferIndex(st) && OneVisible(r)
  {
    var target := NextBufferIndex(st);
    if n == 0 then st.(emptyIn := Some(target), emptyVisible := true, anyShown := false)
    else
      var gen := |st.generations|;
      var st1 := st.(generations := st.generations + [Generation(n, [], shown)], emptyIn := Some(target), emptyVisible := false, anyShown := false);
      var r := RunBatch(st1, gen, target, 0);
      assert r.emptyVisible <==> !AnyShown(shown, 0, Min(st.batchSize, n)) by {
        MulStep(0, st.batchSize);
      }
      AnyShownIff(shown, 0, Min(st.batchSize, n));
      ShowNext(r)
  }

  /**
   * An empty catalogue drawn while one buffer shows never reaches the screen: the label
   * becomes visible only inside the hidden buffer, and the shown buffer keeps its panels
   * and the list the redraw reads.
   */
  lemma EmptyCatalogMessageHidden(st: State)
    requires Valid(st) && OneVisible(st)
    ensures var r := DrawNewTaskType(st, 0, []);
      && !EmptyMessageSeen(r)
      && r.current == st.current && r.visible == st.visible
      && r.contents == st.contents && r.taskPanels == st.taskPanels && r.queue == st.queue
  {
  }

  /**
   * Right after a draw of a non-empty catalogue, the empty-list message is on screen
   * exactly when no task of the first batch passes its filter.
   */
  lemma FirstBatchMessageSeen(st: State, n: nat, shown: seq<bool>)
    requires Valid(st) && |shown| == n && n > 0
    ensures EmptyMessageSeen(DrawNewTaskType(st, n, shown)) <==> forall i :: 0 <= i < Min(st.batchSize, n) ==> !shown[i]
  {
  }

  /** The first batch of a draw: tasks 0 up to min(k, n), then the next batch or the refresh queued. */
  lemma FirstBatch(st: State, gen: nat, target: nat)
    requires Valid(st) && gen < |st.generations| && target < BUFFER_COUNT && st.batchSize > 0
    requires st.generations[gen].built == []
    ensures var r := RunBatch(st, gen, target, 0);
      var k, n := st.batchSize, st.generations[gen].taskCount;
      && r.generations[gen].built == Range(0, Min(k, n))
      && r.contents[target] == st.contents[target] + PanelRange(gen, 0, Min(st.batchSize, n))
      && r.queue == st.queue + [if k < n then ProcessBatch(gen, target, 1) else RefreshAll]
      && r.taskPanels == if k <= n then Alias(gen) else st.taskPanels
  {
    MulStep(0, st.batchSize);
    AcceptBatchRange(st, gen, target, 0, 0);
  }

  /** The swap comes right after the first batch: the newly shown buffer holds only that batch. */
  lemma SwapAfterFirstBatch(st: State, n: nat, shown: seq<bool>)
    requires |shown| == n
    requires Valid(st) && n > 0 && st.batchSize > 0
    ensures var r := DrawNewTaskType(st, n, shown);
      var gen := |st.generations|;
      && r.generations[gen].built == Range(0, Min(st.batchSize, n))
      && r.contents[r.current] == st.contents[r.current] + PanelRange(gen, 0, Min(st.batchSize, n))
      && r.queue == st.queue + [if st.batchSize < n then ProcessBatch(gen, r.current, 1) else RefreshAll, ClearBuffer(st.current)]
      && r.taskPanels == if st.batchSize <= n then Alias(gen) else st.taskPanels
  {
    var target := NextBufferIndex(st);
    var gen := |st.generations|;
    var st1 := st.(generations := st.generations + [Generation(n, [], shown)], emptyIn := Some(target), emptyVisible := false, anyShown := false);
    FirstBatch(st1, gen, target);
  }

  /**
   * `removeAll` on buffer `b`: its panels go, and so does the empty-list label when
   * that buffer holds it.
   */
  function EmptyBuffer(st: State, b: nat): (r: State)
    requires Valid(st) && b < BUFFER_COUNT
    ensures Valid(r) && r.contents[b] == []
    ensures forall c :: 0 <= c < BUFFER_COUNT && c != b ==> r.contents[c] == st.contents[c]
    ensures r.emptyIn.Some? <==> st.emptyIn.Some? && st.emptyIn.value != b
    ensures r.emptyIn.Some? ==> r.emptyIn == st.emptyIn
    ensures r.(contents := st.contents, emptyIn := st.emptyIn) == st
  {
    st.(contents := st.contents[b := []], emptyIn := if st.emptyIn == Some(b) then None else st.emptyIn)
  }

  /** One turn of the event queue: the oldest continuation runs. */
  function Step(st: State): (r: State)
    requires Valid(st)
    ensures Valid(r)
    ensures |st.queue| == 0 ==> r == st
    ensures r.current == st.current && r.visible == st.visible && r.batchSize == st.batchSize
    ensures |r.generations| == |st.generations|
  {
    if |st.queue| == 0 then st
    else
      var c := st.queue[0];
      var st0 := st.(queue := st.queue[1..]);
      assert forall i :: 0 <= i < |st0.queue| ==> st0.queue[i] == st.queue[i + 1];
      match c
      case ProcessBatch(g, t, b) => RunBatch(st0, g, t, b)
      case RefreshAll => st0.(refreshes := st0.refreshes + 1)
      case ClearBuffer(b) => EmptyBuffer(st0, b)
  }

  function Run(st: State, steps: nat): (r: State)
    requires Valid(st)
    ensures Valid(r)
    ensures r.current == st.current && r.visible == st.visible && r.batchSize == st.batchSize
    ensures |r.generations| == |st.generations|
    decreases steps
  {
    if steps == 0 then st else Run(Step(st), steps - 1)
  }

  /** Once exactly one buffer shows, it stays so: queued work never changes visibility. */
  lemma OneVisibleIsKept(st: State, steps: nat)
    requires Valid(st) && OneVisible(st)
    ensures OneVisible(Run(st, steps))
  {
  }

  /** How many batches of size k remain when the next one starts at task `from`. */
  function Remaining(n: nat, k: int, from: int): nat
    decreases if k > 0 && from < n then n - from else 0
  {
    if k <= 0 || from >= n then 0 else 1 + Remaining(n, k, from + k)
  }

  /**
   * One turn running the queued batch b of a draw, for b >= 1 (so starting at task
   * base = b * k >= k): it appends the batch's tasks, and queues the next batch or
   * the refresh behind the rest of the queue.
   */
  lemma BatchStep(st: State, gen: nat, target: nat, b: nat, base: nat, rest: seq<Continuation>)
    requires Valid(st) && gen < |st.generations| && target < BUFFER_COUNT && st.batchSize > 0
    requires base == b * st.batchSize && st.batchSize <= base
    requires st.queue == [ProcessBatch(gen, target, b)] + rest
    ensures var n, k := st.generations[gen].taskCount, st.batchSize;
      var s1 := Step(st);
      var hi := Min(base + k, n);
      && s1.queue == rest + [if base + k < n then ProcessBatch(gen, target, b + 1) else RefreshAll]
      && s1.generations[gen].built == st.generations[gen].built + Range(Min(base, hi), hi)
      && s1.generations[gen].taskCount == n
      && s1.contents[target] == st.contents[target] + PanelRange(gen, Min(base, hi), hi)
      && (forall x :: 0 <= x < BUFFER_COUNT && x != target ==> s1.contents[x] == st.contents[x])
      && s1.taskPanels == st.taskPanels
  {
    MulStep(b, st.batchSize);
    var st0 := st.(queue := rest);
    assert st.queue[1..] == rest;
    assert Step(st) == RunBatch(st0, gen, target, b);
    AcceptBatchRange(st0, gen, target, base, 0);
  }

  lemma RunOne(st: State, m: nat)
    requires Valid(st)
    ensures Run(st, m + 1) == Run(Step(st), m)
  {
  }

  /** The last turn of a draw: the queued refresh of every row. */
  lemma FinalRefresh(st: State)
    requires Valid(st) && st.queue == [RefreshAll]
    ensures Run(st, 1) == st.(queue := [], refreshes := st.refreshes + 1)
  {
    assert st.queue[1..] == [];
  }

  /**
   * From a queued batch b >= 1, starting at task `base`, the remaining batches run in
   * order and then the refresh: the draw is complete, the queue idle, the other buffer
   * and the list `redraw` reads untouched.
   */
  lemma {:induction false} Drain(st: State, gen: nat, target: nat, b: nat, base: nat, turns: nat)
    requires Valid(st) && gen < |st.generations| && target < BUFFER_COUNT && st.batchSize > 0
    requires base == b * st.batchSize
    requires st.queue == [ProcessBatch(gen, target, b)]
    requires st.batchSize <= base < st.generations[gen].taskCount
    requires st.generations[gen].built == Range(0, base)
    requires turns == Remaining(st.generations[gen].taskCount, st.batchSize, base) + 1
    ensures var e := Run(st, turns);
      && e.queue == []
      && e.generations[gen].built == Range(0, st.generations[gen].taskCount)
      && (forall x :: 0 <= x < BUFFER_COUNT && x != target ==> e.contents[x] == st.contents[x])
      && e.taskPanels == st.taskPanels
    decreases st.generations[gen].taskCount - base
  {
    var k, n := st.batchSize, st.generations[gen].taskCount;
    var s1 := Step(st);
    var hi := Min(base + k, n);
    assert && Valid(s1) && s1.batchSize == k && s1.generations[gen].taskCount == n
      && s1.queue == [if base + k < n then ProcessBatch(gen, target, b + 1) else RefreshAll]
      && s1.generations[gen].built == Range(0, hi)
      && (forall x :: 0 <= x < BUFFER_COUNT && x != target ==> s1.contents[x] == st.contents[x])
      && s1.taskPanels == st.taskPanels
    by {
      BatchStep(st, gen, target, b, base, []);
      RangeAppend(0, base, hi);
    }
    assert Run(st, turns) == Run(s1, turns - 1);
    if base + k < n {
      MulStep(b, k);
      Drain(s1, gen, target, b + 1, base + k, turns - 1);
    } else {
      assert turns == 2;
      FinalRefresh(s1);
    }
  }

  /** What the remaining batches append to the target buffer: tasks `base` to n, in order. */
  lemma {:induction false} DrainContents(st: State, gen: nat, target: nat, b: nat, base: nat, turns: nat)
    requires Valid(st) && gen < |st.generations| && target < BUFFER_COUNT && st.batchSize > 0
    requires base == b * st.batchSize
    requires st.queue == [ProcessBatch(gen, target, b)]
    requires st.batchSize <= base < st.generations[gen].taskCount
    requires turns == Remaining(st.generations[gen].taskCount, st.batchSize, base) + 1
    ensures Run(st, turns).contents[target] == st.contents[target] + PanelRange(gen, base, st.generations[gen].taskCount)
    decreases st.generations[gen].taskCount - base
  {
    var k, n := st.batchSize, st.generations[gen].taskCount;
    var s1 := Step(st);
    var hi := Min(base + k, n);
    assert && Valid(s1) && s1.batchSize == k && s1.generations[gen].taskCount == n
      && s1.queue == [if base + k < n then ProcessBatch(gen, target, b + 1) else RefreshAll]
      && s1.contents[target] == st.contents[target] + PanelRange(gen, base, hi)
    by {
      BatchStep(st, gen, target, b, base, []);
    }
    assert Run(st, turns) == Run(s1, turns - 1);
    if base + k < n {
      MulStep(b, k);
      DrainContents(s1, gen, target, b + 1, base + k, turns - 1);
      ChainPanels(st.contents[target], s1.contents[target], Run(s1, turns - 1).contents[target], gen, base, hi, n);
    } else {
      assert turns == 2;
      FinalRefresh(s1);
    }
  }

  function Batches(n: nat, k: int): nat
  {
    Remaining(n, k, 0)
  }

  /**
   * With an idle queue and a positive batch size, drawing n > 0 tasks and then running
   * the queue for the number of batches plus one turns builds every task exactly once,
   * in order, into the newly shown buffer; empties the previously shown one; and leaves
   * the queue idle. The list `redraw` reads is the new one exactly when the catalogue
   * reaches a full batch.
   */
  lemma PopulationCompletes(st: State, n: nat, shown: seq<bool>)
    requires |shown| == n
    requires Valid(st) && st.queue == [] && n > 0 && st.batchSize > 0
    ensures var gen := |st.generations|;
      var target := NextBufferIndex(st);
      var e := Run(DrawNewTaskType(st, n, shown), Batches(n, st.batchSize) + 1);
      && e.queue == []
      && e.generations[gen].built == Range(0, n)
      && e.current == target && OneVisible(e)
      && e.contents[target] == st.contents[target] + PanelRange(gen, 0, n)
      && e.contents[st.current] == []
      && e.taskPanels == if st.batchSize <= n then Alias(gen) else st.taskPanels
  {
    if st.batchSize >= n {
      SingleBatchDraw(st, n, shown);
    } else {
      MultiBatchDraw(st, n, shown);
    }
  }

  lemma SingleBatchDraw(st: State, n: nat, shown: seq<bool>)
    requires |shown| == n
    requires Valid(st) && st.queue == [] && 0 < n <= st.batchSize
    ensures var gen := |st.generations|;
      var target := NextBufferIndex(st);
      var e := Run(DrawNewTaskType(st, n, shown), Batches(n, st.batchSize) + 1);
      && e.queue == []
      && e.generations[gen].built == Range(0, n)
      && e.current == target && OneVisible(e)
      && e.contents[target] == st.contents[target] + PanelRange(gen, 0, n)
      && e.contents[st.current] == []
      && e.taskPanels == if st.batchSize <= n then Alias(gen) else st.taskPanels
  {
    var k := st.batchSize;
    var d := DrawNewTaskType(st, n, shown);
    SwapAfterFirstBatch(st, n, shown);
    SingleBatchTurns(n, k);
    assert Min(k, n) == n;
    SingleBatchRest(d, st.current);
  }

  /** What the two turns after a single-batch draw leave: only the old buffer and the queue change. */
  lemma SingleBatchRest(d: State, c: nat)
    requires Valid(d) && c < BUFFER_COUNT && c != d.current && d.queue == [RefreshAll, ClearBuffer(c)]
    ensures var e := Run(d, 2);
      && e.queue == [] && e.generations == d.generations
      && e.current == d.current && e.visible == d.visible
      && e.contents[d.current] == d.contents[d.current] && e.contents[c] == []
      && e.taskPanels == d.taskPanels
  {
    RefreshThenClear(d, c);
  }

  /** A draw of one batch takes two turns: the refresh and the emptying of the old buffer. */
  lemma SingleBatchTurns(n: nat, k: int)
    requires 0 < n <= k
    ensures Batches(n, k) + 1 == 2
  {
    assert Remaining(n, k, k) == 0;
  }

  /** The two turns after a single-batch draw: the refresh, then emptying the old buffer. */
  lemma RefreshThenClear(d: State, c: nat)
    requires Valid(d) && c < BUFFER_COUNT && d.queue == [RefreshAll, ClearBuffer(c)]
    ensures Run(d, 2) == EmptyBuffer(d.(queue := [], refreshes := d.refreshes + 1), c)
  {
    var s1 := Step(d);
    assert s1 == d.(queue := [ClearBuffer(c)], refreshes := d.refreshes + 1);
    ClearTurn(s1, c, []);
  }

  /**
   * The two turns after a draw of more than one batch: its second batch, then emptying
   * the buffer shown before.
   */
  lemma SecondTurn(d: State, gen: nat, target: nat, c: nat)
    requires Valid(d) && gen < |d.generations| && target < BUFFER_COUNT && c < BUFFER_COUNT && c != target
    requires 0 < d.batchSize < d.generations[gen].taskCount
    requires d.queue == [ProcessBatch(gen, target, 1), ClearBuffer(c)]
    requires d.generations[gen].built == Range(0, d.batchSize)
    ensures var k, n := d.batchSize, d.generations[gen].taskCount;
      var s2 := Step(Step(d));
      var hi := Min(2 * k, n);
      && Valid(s2) && s2.batchSize == k && gen < |s2.generations| && s2.generations[gen].taskCount == n
      && s2.current == d.current && s2.visible == d.visible
      && s2.queue == [if 2 * k < n then ProcessBatch(gen, target, 2) else RefreshAll]
      && s2.generations[gen].built == Range(0, hi)
      && s2.contents[target] == d.contents[target] + PanelRange(gen, d.batchSize, hi)
      && s2.contents[c] == []
      && s2.taskPanels == d.taskPanels
  {
    var k, n := d.batchSize, d.generations[gen].taskCount;
    MulStep(1, k);
    BatchStep(d, gen, target, 1, k, [ClearBuffer(c)]);
    RangeAppend(0, k, Min(2 * k, n));
    var s1 := Step(d);
    ClearTurn(s1, c, s1.queue[1..]);
  }

  /** A turn whose oldest continuation empties a buffer. */
  lemma ClearTurn(st: State, b: nat, rest: seq<Continuation>)
    requires Valid(st) && st.queue == [ClearBuffer(b)] + rest
    ensures Step(st) == EmptyBuffer(st.(queue := rest), b)
  {
    assert st.queue[1..] == rest;
  }

  lemma RunTwo(st: State, m: nat)
    requires Valid(st)
    ensures Run(st, m + 2) == Run(Step(Step(st)), m)
  {
  }

  /** A draw of more than one batch takes two turns before its third batch, if any. */
  lemma MultiBatchTurns(n: nat, k: int)
    requires 0 < k < n
    ensures Batches(n, k) + 1 == Remaining(n, k, 2 * k) + 3
  {
    assert Remaining(n, k, 0) == 1 + Remaining(n, k, k);
    assert Remaining(n, k, k) == 1 + Remaining(n, k, k + k);
  }

  /**
   * From the state a draw of more than one batch leaves, the remaining turns build
   * the rest of the catalogue and empty the buffer shown before.
   */
  lemma AfterFirstBatch(d: State, gen: nat, target: nat, c: nat)
    requires Valid(d) && gen < |d.generations| && target < BUFFER_COUNT && c < BUFFER_COUNT && c != target
    requires 0 < d.batchSize < d.generations[gen].taskCount
    requires d.queue == [ProcessBatch(gen, target, 1), ClearBuffer(c)]
    requires d.generations[gen].built == Range(0, d.batchSize)
    ensures var k, n := d.batchSize, d.generations[gen].taskCount;
      var e := Run(d, Remaining(n, k, 2 * k) + 3);
      && e.queue == []
      && e.generations[gen].built == Range(0, n)
      && e.current == d.current && e.visible == d.visible
      && e.contents[c] == []
      && e.taskPanels == d.taskPanels
  {
    var k, n := d.batchSize, d.generations[gen].taskCount;
    SecondTurn(d, gen, target, c);
    var s2 := Step(Step(d));
    RunTwo(d, Remaining(n, k, 2 * k) + 1);
    if 2 * k < n {
      MulStep(2, k);
      Drain(s2, gen, target, 2, 2 * k, Remaining(n, k, 2 * k) + 1);
    } else {
      assert Remaining(n, k, 2 * k) == 0;
      assert Run(s2, 1) == Step(s2);
    }
  }

  /** What the remaining turns append to the newly shown buffer: tasks k to n, in order. */
  lemma AfterFirstBatchContents(d: State, gen: nat, target: nat, c: nat)
    requires Valid(d) && gen < |d.generations| && target < BUFFER_COUNT && c < BUFFER_COUNT && c != target
    requires 0 < d.batchSize < d.generations[gen].taskCount
    requires d.queue == [ProcessBatch(gen, target, 1), ClearBuffer(c)]
    requires d.generations[gen].built == Range(0, d.batchSize)
    ensures var k, n := d.batchSize, d.generations[gen].taskCount;
      Run(d, Remaining(n, k, 2 * k) + 3).contents[target] == d.contents[target] + PanelRange(gen, k, n)
  {
    var k, n := d.batchSize, d.generations[gen].taskCount;
    var hi := Min(2 * k, n);
    SecondTurn(d, gen, target, c);
    var s2 := Step(Step(d));
    RunTwo(d, Remaining(n, k, 2 * k) + 1);
    if 2 * k < n {
      MulStep(2, k);
      DrainContents(s2, gen, target, 2, 2 * k, Remaining(n, k, 2 * k) + 1);
      JoinPanels(d.contents[target], gen, k, hi, n);
    } else {
      assert Remaining(n, k, 2 * k) == 0;
      assert Run(s2, 1) == Step(s2);
    }
  }

  lemma MultiBatchDraw(st: State, n: nat, shown: seq<bool>)
    requires |shown| == n
    requires Valid(st) && st.queue == [] && 0 < st.batchSize < n
    ensures var gen := |st.generations|;
      var target := NextBufferIndex(st);
      var e := Run(DrawNewTaskType(st, n, shown), Batches(n, st.batchSize) + 1);
      && e.queue == []
      && e.generations[gen].built == Range(0, n)
      && e.current == target && OneVisible(e)
      && e.contents[target] == st.contents[target] + PanelRange(gen, 0, n)
      && e.contents[st.current] == []
      && e.taskPanels == Alias(gen)
  {
    var gen := |st.generations|;
    var target := NextBufferIndex(st);
    SwapAfterFirstBatch(st, n, shown);
    assert Min(st.batchSize, n) == st.batchSize;
    MultiBatchRest(DrawNewTaskType(st, n, shown), gen, target, st.current, st.contents[target]);
  }

  /**
   * From any state the first batch of a larger draw leaves, the remaining turns build
   * the rest of the catalogue after the first batch and empty the buffer shown before.
   */
  lemma MultiBatchRest(d: State, gen: nat, target: nat, c: nat, x: seq<Panel>)
    requires Valid(d) && gen < |d.generations| && target < BUFFER_COUNT && c < BUFFER_COUNT && c != target
    requires 0 < d.batchSize < d.generations[gen].taskCount
    requires d.queue == [ProcessBatch(gen, target, 1), ClearBuffer(c)]
    requires d.generations[gen].built == Range(0, d.batchSize)
    requires d.contents[target] == x + PanelRange(gen, 0, d.batchSize)
    requires d.current == target && OneVisible(d) && d.taskPanels == Alias(gen)
    ensures var n := d.generations[gen].taskCount;
      var e := Run(d, Batches(n, d.batchSize) + 1);
      && e.queue == []
      && e.generations[gen].built == Range(0, n)
      && e.current == target && OneVisible(e)
      && e.contents[target] == x + PanelRange(gen, 0, n)
      && e.contents[c] == []
      && e.taskPanels == Alias(gen)
  {
    var k, n := d.batchSize, d.generations[gen].taskCount;
    MultiBatchTurns(n, k);
    AfterFirstBatch(d, gen, target, c);
    AfterFirstBatchContents(d, gen, target, c);
    JoinPanels(x, gen, 0, k, n);
  }

  /**
   * A catalogue smaller than one batch never reaches index batchSize-1, so the list
   * `redraw` reads is still the previous one after the whole draw has run.
   */
  lemma SmallCatalogKeepsOldPanels(st: State, n: nat, shown: seq<bool>)
    requires |shown| == n
    requires Valid(st) && st.queue == [] && 0 < n < st.batchSize
    ensures Run(DrawNewTaskType(st, n, shown), Batches(n, st.batchSize) + 1).taskPanels == st.taskPanels
    ensures Run(DrawNewTaskType(st, n, shown), Batches(n, st.batchSize) + 1).generations[|st.generations|].built == Range(0, n)
  {
    PopulationCompletes(st, n, shown);
  }

  /** Stuck: the draw has built nothing and one of its batches is always queued. */
  predicate Stuck(st: State, gen: nat)
    requires Valid(st)
  {
    && gen < |st.generations|
    && st.generations[gen].built == []
    && st.generations[gen].taskCount > 0
    && st.batchSize <= 0
    && (forall i :: 0 <= i < |st.queue| && st.queue[i].ProcessBatch? ==> st.queue[i].generation == gen)
    && exists i :: 0 <= i < |st.queue| && st.queue[i].ProcessBatch?
  }

  lemma StuckStep(st: State, gen: nat)
    requires Valid(st) && Stuck(st, gen)
    ensures Stuck(Step(st), gen)
  {
    var c := st.queue[0];
    var st0 := st.(queue := st.queue[1..]);
    var i :| 0 <= i < |st.queue| && st.queue[i].ProcessBatch?;
    if c.ProcessBatch? {
      MulStep(c.batch, st.batchSize);
      var r := Step(st);
      assert r == RunBatch(st0, gen, c.target, c.batch);
      assert r.queue[|r.queue| - 1].ProcessBatch?;
    } else {
      assert i > 0;
      assert Step(st).queue[i - 1] == st.queue[i];
    }
  }

  lemma {:induction false} StuckRun(st: State, gen: nat, steps: nat)
    requires Valid(st) && Stuck(st, gen)
    ensures Stuck(Run(st, steps), gen)
    decreases steps
  {
    if steps > 0 {
      StuckStep(st, gen);
      StuckRun(Step(st), gen, steps - 1);
    }
  }

  /**
   * A batch size of zero or less builds nothing and re-queues the next batch forever:
   * however long the queue runs, no task of the draw gets a panel.
   */
  lemma NonPositiveBatchSizeNeverFinishes(st: State, n: nat, shown: seq<bool>, steps: nat)
    requires |shown| == n
    requires Valid(st) && st.queue == [] && n > 0 && st.batchSize <= 0
    ensures var e := Run(DrawNewTaskType(st, n, shown), steps);
      e.generations[|st.generations|].built == [] && |e.queue| > 0
  {
    var gen := |st.generations|;
    var d := DrawNewTaskType(st, n, shown);
    MulStep(0, st.batchSize);
    assert d.queue[0] == ProcessBatch(gen, NextBufferIndex(st), 1);
    StuckRun(d, gen, steps);
  }

  /** What `redraw` sees as the task panels. */
  function TaskPanelsOf(st: State): (r: seq<Panel>)
    requires Valid(st)
    ensures st.taskPanels.Alias? ==> |r| == |st.generations[st.taskPanels.generation].built|
  {
    match st.taskPanels
    case Own(p) => p
    case Alias(g) => PanelsOf(g, st.generations[g].built)
  }

  /**
   * After a draw of at least one full batch has run, `redraw` sees a panel for every
   * task of the new catalogue, in order, the same panels the shown buffer gained.
   */
  lemma RedrawSeesWholeDraw(st: State, n: nat, shown: seq<bool>)
    requires |shown| == n
    requires Valid(st) && st.queue == [] && 0 < st.batchSize <= n
    ensures var e := Run(DrawNewTaskType(st, n, shown), Batches(n, st.batchSize) + 1);
      && TaskPanelsOf(e) == PanelRange(|st.generations|, 0, n)
      && e.contents[e.current] == st.contents[e.current] + TaskPanelsOf(e)
  {
    PopulationCompletes(st, n, shown);
    PanelsOfRange(|st.generations|, 0, n);
  }
}

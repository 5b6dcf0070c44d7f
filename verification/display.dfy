/** The SSD1306 display side of the firmware (src/display.rs): the gate that
    spawns the presentation task only after the display initialised, and the
    presentation task itself: a splash screen, then one redraw per CO2 reading
    from a `String<10>` text buffer that is declared once and never cleared.

    `init()` and each `flush()` succeed or fail as the parameters say; drawing
    only changes the RAM frame buffer, and a flush is taken to copy the whole
    buffer to the panel when it succeeds and to change nothing when it fails. */
module Display {
  import opened Outcomes
  import opened Fmt
  import Sense

  /** A display in buffered-graphics mode, built over one bus endpoint. */
  datatype DisplayHandle = DisplayHandle(dev: I2cDevice)

  const DisplayInitError: string := "Failed to init ens160"
  const DisplaySpawnError: string := "Faild to spawn sense task!"

  /** `init_display`: build the display over the endpoint and run `init()`;
      the display is handed out exactly when `init()` succeeded. */
  function InitDisplay(dev: I2cDevice, initOk: bool): (r: Result<DisplayHandle>)
    ensures r.Ok? <==> initOk
    ensures r.Ok? ==> r.value.dev == dev
    ensures r.Err? ==> r.msg == DisplayInitError
  {
    var display := DisplayHandle(dev);
    if initOk then Ok(display) else Err(DisplayInitError)
  }

  /** What `start_display` returns and the display it passed to
      `spawn(display_task(..))`, if it attempted a spawn. */
  datatype StartReport = StartReport(result: Result<()>, spawnedWith: Option<DisplayHandle>)

  /** `start_display`: initialise the display (`?` propagates its error) and only
      then ask the executor to spawn the presentation task. */
  function StartDisplay(dev: I2cDevice, initOk: bool, spawn: SpawnOutcome): (r: StartReport)
    // a spawn is attempted exactly when the display initialised, with that display
    ensures r.spawnedWith.Some? <==> InitDisplay(dev, initOk).Ok?
    ensures r.spawnedWith.Some? ==> r.spawnedWith.value == InitDisplay(dev, initOk).value
    // the start succeeds exactly when init() succeeded and the executor admitted the task
    ensures r.result.Ok? <==> initOk && spawn == Spawned
    ensures r.result.Err? ==> r.result.msg == (if initOk then DisplaySpawnError else DisplayInitError)
  {
    match InitDisplay(dev, initOk)
    case Err(msg) => StartReport(Err(msg), None)
    case Ok(display) =>
      StartReport(if spawn == Spawned then Ok(()) else Err(DisplaySpawnError), Some(display))
  }

  // ---------------------------------------------------------------------------
  // The text buffer `txt: String<10>`

  const TxtCapacity: nat := 10
  const Co2Label: string := "CO2: "

  /** A heapless `String<N>`: at most `capacity` bytes stored inline. It is
      counted here in characters, which is the same for what the firmware
      writes into it ("CO2: " and decimal digits are all ASCII). */
  class TextBuf {
    const capacity: nat
    var chars: seq<char>

    ghost predicate Valid() reads this { |chars| <= capacity }

    constructor (capacity: nat)
      ensures Valid() && this.capacity == capacity && chars == []
    {
      this.capacity := capacity;
      chars := [];
    }

    /** `push_str`: appends the whole chunk if it fits, and nothing otherwise. */
    method PushStr(s: seq<char>) returns (ok: bool)
      requires Valid()
      modifies this
      ensures Valid()
      ensures ok <==> |old(chars)| + |s| <= capacity
      ensures chars == if ok then old(chars) + s else old(chars)
    {
      ok := |chars| + |s| <= capacity;
      if ok {
        chars := chars + s;
      }
    }
  }

  /** The text `write!(txt, "CO2: {}", v)` leaves in a buffer holding `txt`:
      the label chunk, then the digits chunk, each appended only if it fits,
      and nothing more after the first chunk that does not. */
  function Co2Write(txt: seq<char>, capacity: nat, v: u16): (r: seq<char>)
    // append-only: what was there stays, and the capacity is respected
    ensures txt <= r
    ensures |txt| <= capacity ==> |r| <= capacity
    // what is appended is a prefix of the full rendering
    ensures r[|txt|..] <= Co2Label + Digits(v as nat)
    // chunk by chunk: nothing, the label alone, or the label and all the digits
    ensures r == txt || r == txt + Co2Label || r == txt + Co2Label + Digits(v as nat)
  {
    if |txt| + |Co2Label| > capacity then txt
    else if |txt| + |Co2Label| + |Digits(v as nat)| > capacity then txt + Co2Label
    else txt + Co2Label + Digits(v as nat)
  }

  /** `write!` into an empty `String<10>` always fits: label and digits. */
  lemma Co2WriteFromEmpty(v: u16)
    ensures Co2Write([], TxtCapacity, v) == Co2Label + Digits(v as nat)
    ensures |Co2Write([], TxtCapacity, v)| <= TxtCapacity
  {
    U16DigitsLength(v);
  }

  /** Once the buffer holds a rendered reading, no further `write!` fits: the
      label chunk alone already overflows, so the text stays as it is. */
  lemma Co2WriteStuck(txt: seq<char>, v: u16)
    requires |txt| > TxtCapacity - |Co2Label|
    ensures Co2Write(txt, TxtCapacity, v) == txt
  {
  }

  /** `write!(txt, "CO2: {}", v).ok()` on the task's buffer. */
  method WriteCo2(txt: TextBuf, v: u16) returns (ok: bool)
    requires txt.Valid()
    modifies txt
    ensures txt.Valid()
    ensures txt.chars == Co2Write(old(txt.chars), txt.capacity, v)
    ensures ok <==> txt.chars == old(txt.chars) + Co2Label + Digits(v as nat)
  {
    ok := txt.PushStr(Co2Label);
    if ok {
      ok := txt.PushStr(Digits(v as nat));
    }
  }

  /** The contents of `txt` after the readings `rs`, in order. */
  function TxtAfter(rs: seq<u16>): (t: seq<char>)
    ensures |t| <= TxtCapacity
  {
    if rs == [] then [] else Co2Write(TxtAfter(rs[..|rs| - 1]), TxtCapacity, rs[|rs| - 1])
  }

  /** `txt` only grows: its contents after k readings extend those after j <= k. */
  lemma {:induction false} TxtAfterGrows(rs: seq<u16>, j: nat, k: nat)
    requires j <= k <= |rs|
    ensures TxtAfter(rs[..j]) <= TxtAfter(rs[..k])
    decreases k - j
  {
    if j < k {
      TxtAfterGrows(rs, j, k - 1);
      assert rs[..k][..k - 1] == rs[..k - 1];
    }
  }

  /** As written, `txt` is frozen on the first reading: "CO2: " and its digits,
      whatever arrives after it. */
  lemma {:induction false} TxtAfterFrozen(rs: seq<u16>)
    requires rs != []
    ensures TxtAfter(rs) == Co2Label + Digits(rs[0] as nat)
    decreases |rs|
  {
    if |rs| == 1 {
      assert rs[..0] == [];
      Co2WriteFromEmpty(rs[0]);
    } else {
      var init := rs[..|rs| - 1];
      TxtAfterFrozen(init);
      U16DigitsLength(init[0]);
      Co2WriteStuck(TxtAfter(init), rs[|rs| - 1]);
    }
  }

  /** The stale display, concretely: after 412 and then 415 the text still reads "CO2: 412". */
  lemma StaleReading()
    ensures TxtAfter([412, 415]) == "CO2: 412"
    ensures TxtAfter([412, 415]) != Co2Label + Digits(415)
  {
    TxtAfterFrozen([412, 415]);
    assert Digits(412) == "412" by {
      assert Digits(41) == "41" by { assert Digits(4) == "4"; }
    }
    assert Digits(415) == "415" by {
      assert Digits(41) == "41" by { assert Digits(4) == "4"; }
    }
    assert (Co2Label + Digits(415))[7] == '5';
  }

  /** The evidently intended text: the buffer cleared before each `write!`, so
      it renders the latest reading. */
  function ShownTextCleared(rs: seq<u16>): (t: seq<char>)
    requires rs != []
    ensures |t| <= TxtCapacity
  {
    Co2Write([], TxtCapacity, rs[|rs| - 1])
  }

  /** With the buffer cleared, the text always carries the latest reading, and
      that reading can be read back from it. */
  lemma ClearedShowsLatest(rs: seq<u16>)
    requires rs != []
    ensures ShownTextCleared(rs) == Co2Label + Digits(rs[|rs| - 1] as nat)
    ensures var t := ShownTextCleared(rs);
      (forall i :: |Co2Label| <= i < |t| ==> IsDigit(t[i])) && Value(t[|Co2Label|..]) == rs[|rs| - 1] as nat
  {
    Co2WriteFromEmpty(rs[|rs| - 1]);
    var t := ShownTextCleared(rs);
    assert t[|Co2Label|..] == Digits(rs[|rs| - 1] as nat);
    ValueOfDigits(rs[|rs| - 1] as nat);
  }

  // ---------------------------------------------------------------------------
  // The screen and display_task

  /** Something drawn into the frame buffer. */
  datatype Drawable = SplashImage(x: int, y: int) | Label(text: seq<char>, x: int, y: int)

  /** The display's RAM frame buffer (what has been drawn since it was last
      cleared) and what the panel shows (the buffer as of the last successful
      flush). */
  datatype ScreenState = ScreenState(buffer: seq<Drawable>, panel: seq<Drawable>)

  /** The operations of `display_task`, in the order it performs them. */
  datatype DisplayOp =
    | DrawSplash
    | Flush(ok: bool)
    | Wait(secs: nat)
    | ClearBuffer
    | TakeReceiver
    | AwaitReading(co2: u16)
    | DrawText(text: seq<char>, x: int, y: int)

  predicate IsFlush(op: DisplayOp) { op.Flush? }

  const SplashAt: Drawable := SplashImage(32, 0)
  const TextX: int := 10
  const TextY: int := 32

  /** The reference meaning of an operation on the screen. */
  function Apply(s: ScreenState, op: DisplayOp): ScreenState {
    match op
    case DrawSplash => s.(buffer := s.buffer + [SplashAt])
    case DrawText(t, x, y) => s.(buffer := s.buffer + [Label(t, x, y)])
    case ClearBuffer => s.(buffer := [])
    case Flush(ok) => if ok then s.(panel := s.buffer) else s
    case _ => s
  }

  function Replay(s: ScreenState, ops: seq<DisplayOp>): ScreenState {
    if ops == [] then s else Apply(Replay(s, ops[..|ops| - 1]), ops[|ops| - 1])
  }

  /** The SSD1306 in buffered-graphics mode. */
  class Screen {
    const handle: DisplayHandle
    var buffer: seq<Drawable>
    var panel: seq<Drawable>

    function State(): ScreenState reads this { ScreenState(buffer, panel) }

    constructor (handle: DisplayHandle)
      ensures this.handle == handle && buffer == [] && panel == []
    {
      this.handle := handle;
      buffer := [];
      panel := [];
    }

    /** Draws into the frame buffer; nothing reaches the panel until a flush. */
    method Draw(item: Drawable)
      modifies this
      ensures buffer == old(buffer) + [item] && panel == old(panel)
    {
      buffer := buffer + [item];
    }

    /** `clear_buffer()`: blanks the frame buffer only. */
    method ClearBuffer()
      modifies this
      ensures buffer == [] && panel == old(panel)
    {
      buffer := [];
    }

    /** `flush()`: a successful flush shows the frame buffer; a failed one leaves the panel. */
    method Flush(ok: bool)
      modifies this
      ensures buffer == old(buffer)
      ensures panel == if ok then old(buffer) else old(panel)
    {
      if ok {
        panel := buffer;
      }
    }
  }

  /** Start-up: splash, flush, hold 2 s, clear, flush, then take the receiver. */
  function StartupOps(f0: bool, f1: bool): seq<DisplayOp> {
    [DrawSplash, Flush(f0), Wait(2), ClearBuffer, Flush(f1), TakeReceiver]
  }

  /** One pass of the loop for reading `v`, with `txt` already written. */
  function ReadingOps(v: u16, txt: seq<char>, f0: bool, f1: bool): seq<DisplayOp> {
    [AwaitReading(v), ClearBuffer, Flush(f0), DrawText(txt, TextX, TextY), Flush(f1)]
  }

  /** The outcomes of the two flushes of one pass of the loop. */
  datatype PassFlushes = PassFlushes(afterClear: bool, afterDraw: bool)

  /** The loop's operations for the readings `rs`; the flushes of pass `k`
      fail or succeed as `fs[k]` says. */
  function LoopOps(rs: seq<u16>, fs: seq<PassFlushes>): seq<DisplayOp>
    requires |fs| == |rs|
  {
    if rs == [] then []
    else
      var n := |rs|;
      LoopOps(rs[..n - 1], fs[..n - 1]) + ReadingOps(rs[n - 1], TxtAfter(rs), fs[n - 1].afterClear, fs[n - 1].afterDraw)
  }

  /** The start-up of `display_task`: splash, flush, hold 2 s, clear, flush,
      and only then `get_receiver()`. */
  method Startup(screen: Screen, co2: Sense.Co2Watch, f0: bool, f1: bool) returns (trace: seq<DisplayOp>)
    requires co2.Valid() && co2.receivers < co2.capacity   // otherwise get_receiver().unwrap() panics
    modifies screen, co2
    ensures trace == StartupOps(f0, f1)
    ensures screen.State() == Replay(old(screen.State()), trace)
    ensures co2.Valid() && co2.receivers == old(co2.receivers) + 1
  {
    ghost var s0 := screen.State();
    assert Replay(s0, []) == s0;
    screen.Draw(SplashAt);
    ReplaySnoc(s0, [], DrawSplash);
    trace := [DrawSplash];
    screen.Flush(f0);
    ReplaySnoc(s0, trace, Flush(f0));
    trace := trace + [Flush(f0)];
    ReplaySnoc(s0, trace, Wait(2));
    trace := trace + [Wait(2)];
    screen.ClearBuffer();
    ReplaySnoc(s0, trace, ClearBuffer);
    trace := trace + [ClearBuffer];
    screen.Flush(f1);
    ReplaySnoc(s0, trace, Flush(f1));
    trace := trace + [Flush(f1)];
    var rx := Sense.GetReceiver(co2);
    ReplaySnoc(s0, trace, TakeReceiver);
    trace := trace + [TakeReceiver];
  }

  /** One pass of the loop for reading `v`: `write!` into `txt`, clear, flush,
      draw `txt` at (10, 32), flush. */
  method ShowReading(screen: Screen, txt: TextBuf, v: u16, f0: bool, f1: bool) returns (step: seq<DisplayOp>)
    requires txt.Valid()
    modifies screen, txt
    ensures txt.Valid() && txt.chars == Co2Write(old(txt.chars), txt.capacity, v)
    ensures step == ReadingOps(v, txt.chars, f0, f1)
    ensures screen.buffer == [Label(txt.chars, TextX, TextY)]
    ensures screen.panel == if f1 then screen.buffer else if f0 then [] else old(screen.panel)
  {
    var ok := WriteCo2(txt, v);
    screen.ClearBuffer();
    screen.Flush(f0);
    screen.Draw(Label(txt.chars, TextX, TextY));
    screen.Flush(f1);
    step := ReadingOps(v, txt.chars, f0, f1);
  }

  /** `display_task`, run for the readings `rs` (the source's loop never ends;
      every prefix of its behaviour is covered). The start-up flushes fail or
      succeed as `splashOk` and `clearOk` say, those of pass `k` as `fs[k]`
      says; flush errors are ignored. */
  method DisplayTask(screen: Screen, co2: Sense.Co2Watch, splashOk: bool, clearOk: bool, rs: seq<u16>, fs: seq<PassFlushes>)
    returns (trace: seq<DisplayOp>)
    requires |fs| == |rs|
    requires co2.Valid() && co2.receivers < co2.capacity   // otherwise get_receiver().unwrap() panics
    modifies screen, co2
    ensures trace == StartupOps(splashOk, clearOk) + LoopOps(rs, fs)
    ensures screen.State() == Replay(old(screen.State()), trace)
    ensures co2.Valid() && co2.receivers == old(co2.receivers) + 1
  {
    ghost var s0 := screen.State();
    var startup := Startup(screen, co2, splashOk, clearOk);
    ghost var s1 := screen.State();
    var txt := new TextBuf(TxtCapacity);
    var loop := [];
    var i := 0;
    while i < |rs|
      invariant 0 <= i <= |rs|
      invariant txt.Valid() && txt.capacity == TxtCapacity && txt.chars == TxtAfter(rs[..i])
      invariant loop == LoopOps(rs[..i], fs[..i])
      invariant screen.State() == Replay(s1, loop)
      modifies screen, txt
    {
      var step := ShowReading(screen, txt, rs[i], fs[i].afterClear, fs[i].afterDraw);
      LoopOpsSnoc(rs, fs, i);
      ReplayStep(s1, loop, rs[i], txt.chars, fs[i].afterClear, fs[i].afterDraw);
      loop := loop + step;
      i := i + 1;
    }
    assert rs[..i] == rs && fs[..i] == fs;
    ReplayAppend(s0, startup, loop);
    trace := startup + loop;
  }

  /** Extending the readings by one extends the loop's operations by one pass. */
  lemma LoopOpsSnoc(rs: seq<u16>, fs: seq<PassFlushes>, i: nat)
    requires i < |rs| && |fs| == |rs|
    ensures TxtAfter(rs[..i + 1]) == Co2Write(TxtAfter(rs[..i]), TxtCapacity, rs[i])
    ensures LoopOps(rs[..i + 1], fs[..i + 1]) ==
      LoopOps(rs[..i], fs[..i]) + ReadingOps(rs[i], TxtAfter(rs[..i + 1]), fs[i].afterClear, fs[i].afterDraw)
  {
    assert rs[..i + 1][..i] == rs[..i];
    assert fs[..i + 1][..i] == fs[..i];
  }

  /** Replaying two stretches of operations one after the other. */
  lemma {:induction false} ReplayAppend(s: ScreenState, a: seq<DisplayOp>, b: seq<DisplayOp>)
    ensures Replay(s, a + b) == Replay(Replay(s, a), b)
    decreases |b|
  {
    if b == [] {
      assert a + b == a;
    } else {
      var b' := b[..|b| - 1];
      assert (a + b)[..|a + b| - 1] == a + b';
      ReplayAppend(s, a, b');
    }
  }

  /** Replaying one pass of the loop. */
  lemma ReplayStep(s: ScreenState, ops: seq<DisplayOp>, v: u16, txt: seq<char>, f0: bool, f1: bool)
    ensures var r := Replay(s, ops);
      Replay(s, ops + ReadingOps(v, txt, f0, f1)) ==
        ScreenState([Label(txt, TextX, TextY)],
          if f1 then [Label(txt, TextX, TextY)] else if f0 then [] else r.panel)
  {
    var step := ReadingOps(v, txt, f0, f1);
    assert step == [AwaitReading(v)] + [ClearBuffer] + [Flush(f0)] + [DrawText(txt, TextX, TextY)] + [Flush(f1)];
    ReplaySnoc(s, ops, AwaitReading(v));
    ReplaySnoc(s, ops + [AwaitReading(v)], ClearBuffer);
    ReplaySnoc(s, ops + [AwaitReading(v)] + [ClearBuffer], Flush(f0));
    ReplaySnoc(s, ops + [AwaitReading(v)] + [ClearBuffer] + [Flush(f0)], DrawText(txt, TextX, TextY));
    ReplaySnoc(s, ops + [AwaitReading(v)] + [ClearBuffer] + [Flush(f0)] + [DrawText(txt, TextX, TextY)], Flush(f1));
    assert ops + step == ops + [AwaitReading(v)] + [ClearBuffer] + [Flush(f0)] + [DrawText(txt, TextX, TextY)] + [Flush(f1)];
  }

  lemma ReplaySnoc(s: ScreenState, ops: seq<DisplayOp>, op: DisplayOp)
    ensures Replay(s, ops + [op]) == Apply(Replay(s, ops), op)
  {
    assert (ops + [op])[..|ops|] == ops;
  }

  /** Each pass of the loop flushes twice, whatever the flushes return. */
  lemma {:induction false} LoopFlushesTwicePerReading(rs: seq<u16>, fs: seq<PassFlushes>)
    requires |fs| == |rs|
    ensures CountWhere(LoopOps(rs, fs), IsFlush) == 2 * |rs|
    decreases |rs|
  {
    if rs != [] {
      var n := |rs|;
      var step := ReadingOps(rs[n - 1], TxtAfter(rs), fs[n - 1].afterClear, fs[n - 1].afterDraw);
      LoopFlushesTwicePerReading(rs[..n - 1], fs[..n - 1]);
      CountWhereAppend(LoopOps(rs[..n - 1], fs[..n - 1]), step, IsFlush);
      assert step == [step[0], step[1]] + [step[2]] + [step[3]] + [step[4]];
      CountWhereAppend([step[0], step[1]] + [step[2]] + [step[3]], [step[4]], IsFlush);
      CountWhereAppend([step[0], step[1]] + [step[2]], [step[3]], IsFlush);
      CountWhereAppend([step[0], step[1]], [step[2]], IsFlush);
      CountWhereNone([step[0], step[1]], IsFlush);
    }
  }

  /** The loop only waits for readings, clears, flushes and draws the text at
      (10, 32); and the text it draws is always the first reading's. */
  lemma {:induction false} LoopOpsDrawFrozenText(rs: seq<u16>, fs: seq<PassFlushes>)
    requires |fs| == |rs|
    ensures forall i :: 0 <= i < |LoopOps(rs, fs)| ==>
      var op := LoopOps(rs, fs)[i];
      op.AwaitReading? || op.ClearBuffer? || op.Flush? ||
      (op.DrawText? && op.x == TextX && op.y == TextY && op.text == Co2Label + Digits(rs[0] as nat))
    decreases |rs|
  {
    if rs != [] {
      var n := |rs|;
      var init := rs[..n - 1];
      LoopOpsDrawFrozenText(init, fs[..n - 1]);
      TxtAfterFrozen(rs);
      assert n > 1 ==> init[0] == rs[0];
    }
  }

  /** The whole run: the five start-up operations, then the receiver is taken,
      and only then is any reading awaited. */
  lemma StartupPrecedesReadings(splashOk: bool, clearOk: bool, rs: seq<u16>, fs: seq<PassFlushes>)
    requires |fs| == |rs|
    ensures var trace := StartupOps(splashOk, clearOk) + LoopOps(rs, fs);
      trace[..5] == [DrawSplash, Flush(splashOk), Wait(2), ClearBuffer, Flush(clearOk)] &&
      trace[5] == TakeReceiver &&
      (forall i :: 0 <= i < |trace| && i != 5 ==> !trace[i].TakeReceiver?) &&
      (forall i :: 0 <= i < |trace| && (trace[i].AwaitReading? || trace[i].DrawText?) ==> i > 5)
  {
    LoopOpsDrawFrozenText(rs, fs);
    var loop := LoopOps(rs, fs);
    var trace := StartupOps(splashOk, clearOk) + loop;
    assert forall i :: 6 <= i < |trace| ==> trace[i] == loop[i - 6];
  }

  /** What the screen shows after a pass: the buffer holds the text, and the
      panel shows it if the second flush went through, a blank screen if only
      the first did, and what it showed before otherwise. */
  lemma PanelAfterPass(s: ScreenState, rs: seq<u16>, fs: seq<PassFlushes>)
    requires |fs| == |rs| && rs != []
    ensures var n := |rs|;
      var before := Replay(s, LoopOps(rs[..n - 1], fs[..n - 1]));
      var after := Replay(s, LoopOps(rs, fs));
      after.buffer == [Label(TxtAfter(rs), TextX, TextY)] &&
      after.panel == (if fs[n - 1].afterDraw then after.buffer
                      else if fs[n - 1].afterClear then [] else before.panel)
  {
    var n := |rs|;
    ReplayStep(s, LoopOps(rs[..n - 1], fs[..n - 1]), rs[n - 1], TxtAfter(rs), fs[n - 1].afterClear, fs[n - 1].afterDraw);
  }

  /** As written, a successfully flushed panel shows the first reading for
      ever: "CO2: " and the first reading's digits. */
  lemma PanelFrozenOnFirstReading(s: ScreenState, splashOk: bool, clearOk: bool, rs: seq<u16>, fs: seq<PassFlushes>)
    requires |fs| == |rs| && rs != [] && fs[|fs| - 1].afterDraw
    ensures Replay(s, StartupOps(splashOk, clearOk) + LoopOps(rs, fs)).panel ==
      [Label(Co2Label + Digits(rs[0] as nat), TextX, TextY)]
  {
    ReplayAppend(s, StartupOps(splashOk, clearOk), LoopOps(rs, fs));
    PanelAfterPass(Replay(s, StartupOps(splashOk, clearOk)), rs, fs);
    TxtAfterFrozen(rs);
  }

  /** A first reading of 412: the loop renders "CO2: 412" at (10, 32), between
      two flushes. */
  lemma FirstReading412(f: PassFlushes)
    ensures LoopOps([412], [f]) ==
      [AwaitReading(412), ClearBuffer, Flush(f.afterClear), DrawText("CO2: 412", 10, 32), Flush(f.afterDraw)]
  {
    var rs: seq<u16> := [412];
    assert rs[..0] == [] && [f][..0] == [];
    assert LoopOps(rs[..0], [f][..0]) == [];
    TxtAfterFrozen(rs);
    assert Digits(412) == "412" by {
      assert Digits(41) == "41" by { assert Digits(4) == "4"; }
    }
    assert TxtAfter(rs) == "CO2: 412";
    assert LoopOps(rs, [f]) == ReadingOps(412, TxtAfter(rs), f.afterClear, f.afterDraw);
  }
}

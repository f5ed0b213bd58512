/**
 * The handle on the light device (controller/shooting_stars/device.py): a
 * connectivity flag that a background monitor keeps up to date from status
 * polls and reconnection attempts, and the frame push that refuses to send
 * when disconnected or when the frame is not an unsigned-byte array, and
 * otherwise sends the frame's bytes in row-major order.
 *
 * Discovery, the HTTP status request, the UDP send and the sleeps are not
 * modelled: their outcomes are inputs, and the push returns the bytes it sends.
 */
module Device {
  import opened Wrappers

  /** The status code the device reports when all is well. */
  const STATUS_OK: int := 1000

  /** The control interface built from a discovered device's addresses. */
  datatype Control = Control(ipAddress: string, hwAddress: string)

  /** The outcome of one status poll: the reported code, or any exception on the way. */
  datatype Poll = Status(code: int) | PollFailed

  /**
   * The outcome of `reconnect`: discovery fails, or the new control interface
   * is stored and then setting real-time mode fails, or both succeed.
   */
  datatype Reconnect = DiscoverFailed | ModeFailed(control: Control) | Reconnected(control: Control)

  /** What one sleep interval of the monitor loop observes. */
  datatype MonitorTick = MonitorTick(stopDuringSleep: bool, poll: Poll, reconnect: Reconnect)

  /** The part of the device that the monitor changes. */
  datatype Link = Link(connected: bool, control: Option<Control>)

  /** The element type of a numpy frame array: unsigned bytes, or anything else. */
  datatype DType = UByte | OtherDType

  /** A frame array: one row per light, `width` components per row. */
  datatype FrameArray = FrameArray(dtype: DType, cells: seq<seq<int>>, width: nat)

  datatype FrameError = DeviceDisconnected | InvalidFrameArray

  /** What numpy guarantees of an array: rectangular, and unsigned bytes in range. */
  predicate WellFormed(a: FrameArray) {
    && (forall k :: 0 <= k < |a.cells| ==> |a.cells[k]| == a.width)
    && (a.dtype == UByte ==> forall k, c :: 0 <= k < |a.cells| && 0 <= c < |a.cells[k]| ==> 0 <= a.cells[k][c] < 256)
  }

  /** The monitor's effect on the link in one iteration. */
  function MonitorStep(l: Link, t: MonitorTick): Link {
    if l.connected then
      Link(t.poll == Status(STATUS_OK), l.control)
    else
      match t.reconnect
      case DiscoverFailed => l
      case ModeFailed(c) => Link(false, Some(c))
      case Reconnected(c) => Link(true, Some(c))
  }

  /**
   * The link after the monitor loop has run through `ticks`, leaving after the
   * iteration during whose sleep `stop_monitor` was called.
   */
  function MonitorRun(l: Link, ticks: seq<MonitorTick>): Link
    decreases |ticks|
  {
    if ticks == [] then l
    else if ticks[0].stopDuringSleep then MonitorStep(l, ticks[0])
    else MonitorRun(MonitorStep(l, ticks[0]), ticks[1..])
  }

  /** While connected, a poll keeps the connection exactly when it reports the nominal code. */
  lemma PollWhileConnected(l: Link, t: MonitorTick)
    requires l.connected
    ensures MonitorStep(l, t).connected <==> t.poll == Status(STATUS_OK)
    ensures MonitorStep(l, t).control == l.control
  {
  }

  /** While disconnected, only a complete reconnection connects. */
  lemma ReconnectWhileDisconnected(l: Link, t: MonitorTick)
    requires !l.connected
    ensures MonitorStep(l, t).connected <==> t.reconnect.Reconnected?
  {
  }

  /** The bytes of a matrix in C (row-major) order. */
  function RowMajor(cells: seq<seq<int>>): seq<int>
    decreases |cells|
  {
    if cells == [] then [] else RowMajor(cells[..|cells| - 1]) + cells[|cells| - 1]
  }

  /** A matrix of `width`-wide rows has rows × width row-major bytes. */
  lemma {:induction false} RowMajorLength(cells: seq<seq<int>>, width: nat)
    requires forall k :: 0 <= k < |cells| ==> |cells[k]| == width
    ensures |RowMajor(cells)| == |cells| * width
    decreases |cells|
  {
    if cells != [] {
      RowMajorLength(cells[..|cells| - 1], width);
      assert |cells| * width == (|cells| - 1) * width + width;
    }
  }

  /** Byte `k * width + c` of the row-major bytes is element `[k][c]`. */
  lemma {:induction false} RowMajorAt(cells: seq<seq<int>>, width: nat, k: nat, c: nat)
    requires forall i :: 0 <= i < |cells| ==> |cells[i]| == width
    requires k < |cells| && c < width
    ensures k * width + c < |RowMajor(cells)|
    ensures RowMajor(cells)[k * width + c] == cells[k][c]
    decreases |cells|
  {
    var n := |cells|;
    var init := cells[..n - 1];
    RowMajorLength(init, width);
    RowMajorLength(cells, width);
    assert (k + 1) * width == k * width + width;
    MulLe(k + 1, n, width);
    if k < n - 1 {
      MulLe(k + 1, n - 1, width);
      RowMajorAt(init, width, k, c);
    }
  }

  /** The `rows` rows of a row-major byte sequence: the partner of `RowMajor`. */
  function Rows(bytes: seq<int>, width: nat, rows: nat): (r: seq<seq<int>>)
    requires |bytes| == rows * width
    ensures |r| == rows
    decreases rows
  {
    if rows == 0 then []
    else
      MulSucc(rows - 1, width);
      Rows(bytes[..(rows - 1) * width], width, rows - 1) + [bytes[(rows - 1) * width..]]
  }

  lemma MulSucc(k: nat, w: nat)
    ensures (k + 1) * w == k * w + w
  {
  }

  lemma MulLe(a: nat, b: nat, w: nat)
    requires a <= b
    ensures a * w <= b * w
  {
  }

  /** Cutting the row-major bytes back into rows gives the matrix again. */
  lemma {:induction false} RowsOfRowMajor(cells: seq<seq<int>>, width: nat)
    requires forall k :: 0 <= k < |cells| ==> |cells[k]| == width
    ensures |RowMajor(cells)| == |cells| * width
    ensures Rows(RowMajor(cells), width, |cells|) == cells
    decreases |cells|
  {
    RowMajorLength(cells, width);
    if cells != [] {
      var n := |cells|;
      var init := cells[..n - 1];
      RowMajorLength(init, width);
      RowsOfRowMajor(init, width);
      var bytes := RowMajor(cells);
      assert bytes == RowMajor(init) + cells[n - 1];
      assert bytes[..(n - 1) * width] == RowMajor(init);
      assert bytes[(n - 1) * width..] == cells[n - 1];
      assert init + [cells[n - 1]] == cells;
    }
  }

  /** The rows of a two-dimensional array, as values. */
  function Cells(a: array2<int>): (cells: seq<seq<int>>)
    reads a
    ensures |cells| == a.Length0
    ensures forall i :: 0 <= i < |cells| ==> |cells[i]| == a.Length1
    ensures forall i, j :: 0 <= i < a.Length0 && 0 <= j < a.Length1 ==> cells[i][j] == a[i, j]
  {
    seq(a.Length0, i reads a requires 0 <= i < a.Length0 =>
      seq(a.Length1, j reads a requires 0 <= j < a.Length1 => a[i, j]))
  }

  class Device {
    const deviceId: string
    var monitorStopped: bool
    var connected: bool
    var control: Option<Control>

    /** A connected device always has a control interface. */
    ghost predicate Valid()
      reads this
    {
      connected ==> control.Some?
    }

    function View(): Link
      reads this
    {
      Link(connected, control)
    }

    /** A new device starts disconnected, without a control interface. */
    constructor (deviceId: string)
      ensures Valid()
      ensures this.deviceId == deviceId && !monitorStopped && !connected && control == None
    {
      this.deviceId := deviceId;
      monitorStopped := false;
      connected := false;
      control := None;
    }

    /** `stop_monitor` only raises the stop flag. */
    method StopMonitor()
      modifies this`monitorStopped
      ensures monitorStopped
    {
      monitorStopped := true;
    }

    /** One iteration of `run_monitor` after its sleep. */
    method MonitorOnce(t: MonitorTick)
      requires Valid()
      modifies this`connected, this`control
      ensures Valid()
      ensures View() == MonitorStep(old(View()), t)
    {
      if connected {
        if t.poll.PollFailed? || t.poll.code != STATUS_OK {
          connected := false;
        }
      } else {
        match t.reconnect {
          case DiscoverFailed =>
          case ModeFailed(c) =>
            control := Some(c);
          case Reconnected(c) =>
            control := Some(c);
            connected := true;
        }
      }
    }

    /**
     * `run_monitor`: loops while the stop flag is clear; a stop requested
     * during an iteration's sleep still lets that iteration finish.
     */
    method RunMonitor(ticks: seq<MonitorTick>) returns (iterations: nat)
      requires Valid()
      modifies this`connected, this`control, this`monitorStopped
      ensures Valid()
      ensures old(monitorStopped) ==> iterations == 0 && View() == old(View())
      ensures !old(monitorStopped) ==> View() == MonitorRun(old(View()), ticks)
      ensures iterations <= |ticks|
      ensures monitorStopped ==> iterations == 0 || ticks[iterations - 1].stopDuringSleep
      ensures !monitorStopped ==> iterations == |ticks|
      ensures !old(monitorStopped) ==>
        (monitorStopped <==> exists i :: 0 <= i < |ticks| && ticks[i].stopDuringSleep)
      ensures !old(monitorStopped) ==> forall i :: 0 <= i < iterations - 1 ==> !ticks[i].stopDuringSleep
    {
      iterations := 0;
      ghost var start := View();
      while !monitorStopped && iterations < |ticks|
        invariant Valid()
        invariant 0 <= iterations <= |ticks|
        invariant old(monitorStopped) ==> monitorStopped && iterations == 0 && View() == start
        invariant !old(monitorStopped) && !monitorStopped ==>
          MonitorRun(View(), ticks[iterations..]) == MonitorRun(start, ticks)
        invariant !old(monitorStopped) && monitorStopped ==>
          View() == MonitorRun(start, ticks)
        invariant monitorStopped ==> iterations == 0 || ticks[iterations - 1].stopDuringSleep
        invariant !old(monitorStopped) ==> (monitorStopped <==> iterations > 0 && ticks[iterations - 1].stopDuringSleep)
        invariant !old(monitorStopped) ==> forall i :: 0 <= i < iterations - 1 ==> !ticks[i].stopDuringSleep
        decreases |ticks| - iterations
      {
        var t := ticks[iterations];
        assert ticks[iterations..][1..] == ticks[iterations + 1..];
        if t.stopDuringSleep {
          StopMonitor();
        }
        MonitorOnce(t);
        iterations := iterations + 1;
      }
      assert ticks[|ticks|..] == [];
    }

    /**
     * `set_frame_array`: refuses a disconnected device first, then a frame
     * that is not unsigned bytes; otherwise returns the bytes sent, row by row.
     */
    method SetFrameArray(a: FrameArray) returns (r: Result<seq<int>, FrameError>)
      requires WellFormed(a)
      ensures !connected ==> r == Err(DeviceDisconnected)
      ensures connected && a.dtype != UByte ==> r == Err(InvalidFrameArray)
      ensures r.Ok? <==> connected && a.dtype == UByte
      ensures r.Ok? ==> r.value == RowMajor(a.cells)
      ensures r.Ok? ==> |r.value| == |a.cells| * a.width
      ensures r.Ok? ==> Rows(r.value, a.width, |a.cells|) == a.cells
      ensures r.Ok? ==> forall i :: 0 <= i < |r.value| ==> 0 <= r.value[i] < 256
    {
      if !connected {
        return Err(DeviceDisconnected);
      }
      if a.dtype != UByte {
        return Err(InvalidFrameArray);
      }
      var frame: seq<int> := [];
      var k := 0;
      while k < |a.cells|
        invariant 0 <= k <= |a.cells|
        invariant frame == RowMajor(a.cells[..k])
        invariant forall i :: 0 <= i < |frame| ==> 0 <= frame[i] < 256
      {
        assert a.cells[..k + 1][..k] == a.cells[..k];
        frame := frame + a.cells[k];
        k := k + 1;
      }
      assert a.cells[..k] == a.cells;
      RowsOfRowMajor(a.cells, a.width);
      r := Ok(frame);
    }
  }

  /**
   * A device that connects and then reports status 500 is disconnected, and
   * its next frame push fails without sending anything.
   */
  method FailedPollScenario(frame: FrameArray, c: Control) returns (r: Result<seq<int>, FrameError>)
    requires WellFormed(frame)
    ensures r == Err(DeviceDisconnected)
  {
    var d := new Device("device");
    d.MonitorOnce(MonitorTick(false, PollFailed, Reconnected(c)));
    assert d.connected;
    d.MonitorOnce(MonitorTick(false, Status(500), DiscoverFailed));
    r := d.SetFrameArray(frame);
  }
}

/**
 * The test animation (controller/shooting_stars/animation.py): each frame
 * lights one colour component of every light at full brightness, cycling
 * through the four components, pushed at a fixed two frames per second.
 */
module Animation {
  import opened Wrappers
  import Device

  const LED_COUNT: nat := 190
  const COMPONENT_COUNT: nat := 4
  const FRAMES_PER_SECOND: nat := 2
  /** One over FRAMES_PER_SECOND. */
  const FRAME_DELAY_SECONDS: real := 0.5

  /** The frame counter wraps here so that it never grows without bound. */
  const FRAME_INDEX_BOUND: nat := 10_000

  function RealMax(a: real, b: real): real {
    if a < b then b else a
  }

  /** The frame shown at a given frame index, one row per light. */
  function Frame(frameIdx: nat): (rows: seq<seq<int>>)
    ensures |rows| == LED_COUNT
    ensures forall i :: 0 <= i < LED_COUNT ==> |rows[i]| == COMPONENT_COUNT
    ensures forall i, c :: 0 <= i < LED_COUNT && 0 <= c < COMPONENT_COUNT ==>
      rows[i][c] == (if c == frameIdx % COMPONENT_COUNT then 255 else 0)
    ensures forall i, c :: 0 <= i < LED_COUNT && 0 <= c < COMPONENT_COUNT ==> 0 <= rows[i][c] < 256
  {
    seq(LED_COUNT, i => seq(COMPONENT_COUNT, c => if c == frameIdx % COMPONENT_COUNT then 255 else 0))
  }

  /**
   * The frame of `render_frame`: a zeroed LED_COUNT × COMPONENT_COUNT array
   * whose column `frameIdx % 4` is then set to 255.
   */
  method BuildFrame(frameIdx: nat) returns (frame: array2<int>)
    ensures frame.Length0 == LED_COUNT && frame.Length1 == COMPONENT_COUNT
    ensures forall i, c :: 0 <= i < LED_COUNT && 0 <= c < COMPONENT_COUNT ==>
      frame[i, c] == if c == frameIdx % COMPONENT_COUNT then 255 else 0
  {
    frame := new int[LED_COUNT, COMPONENT_COUNT]((i, c) => 0);
    var column := frameIdx % COMPONENT_COUNT;
    var i := 0;
    while i < LED_COUNT
      invariant 0 <= i <= LED_COUNT
      invariant forall k, c :: 0 <= k < LED_COUNT && 0 <= c < COMPONENT_COUNT ==>
        frame[k, c] == if c == column && k < i then 255 else 0
    {
      frame[i, column] := 255;
      i := i + 1;
    }
  }

  /** `render_frame`: builds the frame and pushes it to the device. */
  method RenderFrame(device: Device.Device, frameIdx: nat) returns (r: Result<seq<int>, Device.FrameError>)
    ensures !device.connected ==> r == Err(Device.DeviceDisconnected)
    ensures device.connected ==> r.Ok? && |r.value| == LED_COUNT * COMPONENT_COUNT
    ensures r.Ok? ==> forall k, c :: 0 <= k < LED_COUNT && 0 <= c < COMPONENT_COUNT ==>
      r.value[k * COMPONENT_COUNT + c] == Frame(frameIdx)[k][c]
  {
    var frame := BuildFrame(frameIdx);
    var cells := Device.Cells(frame);
    forall i | 0 <= i < LED_COUNT
      ensures cells[i] == Frame(frameIdx)[i]
    {
    }
    assert cells == Frame(frameIdx);
    r := device.SetFrameArray(Device.FrameArray(Device.UByte, cells, COMPONENT_COUNT));
    if r.Ok? {
      forall k, c | 0 <= k < LED_COUNT && 0 <= c < COMPONENT_COUNT
        ensures k * COMPONENT_COUNT + c < |r.value| && r.value[k * COMPONENT_COUNT + c] == cells[k][c]
      {
        Device.RowMajorAt(cells, COMPONENT_COUNT, k, c);
      }
    }
  }

  lemma NextFrameIndex(k: nat)
    ensures (k % FRAME_INDEX_BOUND + 1) % FRAME_INDEX_BOUND == (k + 1) % FRAME_INDEX_BOUND
  {
  }

  /** The first frame at which the device is disconnected, or the number of frames when there is none. */
  function FirstDisconnected(connectedAt: seq<bool>): (n: nat)
    ensures n <= |connectedAt|
    ensures forall j :: 0 <= j < n ==> connectedAt[j]
    ensures n < |connectedAt| ==> !connectedAt[n]
  {
    if |connectedAt| == 0 || !connectedAt[0] then 0
    else 1 + FirstDisconnected(connectedAt[1..])
  }

  /**
   * `run_animation`, fed with the clock reading taken before each sleep and
   * with the device's connectivity as the monitor thread has left it when
   * each frame is pushed. The first push to a disconnected device raises,
   * which leaves the loop. Before that, frame k shows frame index k mod
   * 10000, the deadline advances by exactly one frame delay per frame
   * whatever the render took, and each sleep lasts until that deadline, or
   * not at all when it has passed.
   */
  method RunAnimation(device: Device.Device, start: real, clock: seq<real>, connectedAt: seq<bool>)
    returns (frameIndexes: seq<nat>, sleeps: seq<real>, failure: Option<Device.FrameError>)
    requires |connectedAt| == |clock|
    modifies device`connected
    ensures |frameIndexes| == |sleeps| == FirstDisconnected(connectedAt)
    ensures failure == if FirstDisconnected(connectedAt) < |clock| then Some(Device.DeviceDisconnected) else None
    ensures forall k :: 0 <= k < |frameIndexes| ==> frameIndexes[k] == k % FRAME_INDEX_BOUND
    ensures forall k :: 0 <= k < |sleeps| ==>
      sleeps[k] == RealMax(0.0, start + (k + 1) as real * FRAME_DELAY_SECONDS - clock[k])
    ensures forall k :: 0 <= k < |sleeps| ==> sleeps[k] >= 0.0
    ensures device.connected == if |clock| == 0 then old(device.connected)
      else connectedAt[Min(FirstDisconnected(connectedAt), |clock| - 1)]
  {
    var nextTime := start;
    var frameIdx: nat := 0;
    frameIndexes, sleeps, failure := [], [], None;
    var k := 0;
    while k < |clock|
      invariant 0 <= k <= |clock|
      invariant k <= FirstDisconnected(connectedAt)
      invariant frameIdx == k % FRAME_INDEX_BOUND
      invariant nextTime == start + k as real * FRAME_DELAY_SECONDS
      invariant |frameIndexes| == |sleeps| == k
      invariant failure == None
      invariant device.connected == if k == 0 then old(device.connected) else connectedAt[k - 1]
      invariant forall j :: 0 <= j < k ==> frameIndexes[j] == j % FRAME_INDEX_BOUND
      invariant forall j :: 0 <= j < k ==>
        sleeps[j] == RealMax(0.0, start + (j + 1) as real * FRAME_DELAY_SECONDS - clock[j])
    {
      // The monitor thread's latest write, as this frame sees it.
      device.connected := connectedAt[k];
      var sent := RenderFrame(device, frameIdx);
      if sent.Err? {
        failure := Some(sent.error);
        return;
      }
      frameIndexes := frameIndexes + [frameIdx];
      NextFrameIndex(k);
      frameIdx := (frameIdx + 1) % FRAME_INDEX_BOUND;
      nextTime := nextTime + FRAME_DELAY_SECONDS;
      sleeps := sleeps + [RealMax(0.0, nextTime - clock[k])];
      k := k + 1;
    }
  }
}

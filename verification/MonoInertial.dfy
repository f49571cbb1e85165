/** Image and IMU synchronisation: two callbacks feed two buffers, one worker pairs each image with
    the samples up to its time. */
module MonoInertial {
  import opened Common

  /** Stamps are seconds; `data` stands for the payload. */
  datatype Image = Image(stamp: real, data: int)
  datatype Imu = Imu(stamp: real, data: int)

  /** An image taken from the buffer with the samples handed to it. */
  datatype Batch = Batch(image: Image, imus: seq<Imu>)

  /** A finished batch: tracked, or lost because the image could not be converted. */
  datatype Entry = Entry(batch: Batch, tracked: bool)

  /** The shared buffers and the worker's locals, with the history of finished batches. */
  datatype State = State(
    running: bool,
    imageBuffer: seq<Image>,
    imuBuffer: seq<Imu>,
    lastImageTime: real,
    inFlight: Option<Batch>,
    log: seq<Entry>)

  /** One atomic step: a callback, a critical section of the worker, or the end of its processing. */
  datatype Event = ImageArrives(image: Image) | ImuArrives(imu: Imu) | TakeBatch | ConversionFails | Tracks | Stop

  const INITIAL := State(true, [], [], -1.0, None, [])

  /** The predicate the worker waits for. */
  predicate Ready(s: State) {
    && s.running && s.inFlight.None?
    && s.imageBuffer != [] && s.imuBuffer != []
    && s.imuBuffer[|s.imuBuffer| - 1].stamp >= s.imageBuffer[0].stamp
  }

  /** The image is not newer than the last tracked one. */
  predicate Stale(last: real, t: real) {
    last >= 0.0 && t <= last
  }

  /** How many samples at the front are not after `t`. */
  function CountUpTo(imus: seq<Imu>, t: real): (n: nat)
    ensures n <= |imus|
  {
    if imus == [] || imus[0].stamp > t then 0 else 1 + CountUpTo(imus[1..], t)
  }

  /** The samples the worker keeps: those after the last tracked image. */
  function Kept(imus: seq<Imu>, last: real): seq<Imu> {
    if imus == [] then []
    else Kept(imus[..|imus| - 1], last) +
         (if last < 0.0 || imus[|imus| - 1].stamp > last then [imus[|imus| - 1]] else [])
  }

  function Take(s: State): State
    requires Ready(s)
  {
    var image := s.imageBuffer[0];
    var rest := s.(imageBuffer := s.imageBuffer[1..]);
    if Stale(s.lastImageTime, image.stamp) then rest
    else
      var n := CountUpTo(s.imuBuffer, image.stamp);
      rest.(imuBuffer := s.imuBuffer[n..],
            inFlight := Some(Batch(image, Kept(s.imuBuffer[..n], s.lastImageTime))))
  }

  /** A step that is not enabled leaves the state as it is. */
  function Next(s: State, e: Event): State {
    match e
    case ImageArrives(image) => s.(imageBuffer := s.imageBuffer + [image])
    case ImuArrives(imu) => s.(imuBuffer := s.imuBuffer + [imu])
    case TakeBatch => if Ready(s) then Take(s) else s
    case ConversionFails =>
      if s.inFlight.None? then s
      else s.(inFlight := None, log := s.log + [Entry(s.inFlight.value, false)])
    case Tracks =>
      if s.inFlight.None? then s
      else s.(inFlight := None, log := s.log + [Entry(s.inFlight.value, true)],
              lastImageTime := s.inFlight.value.image.stamp)
    case Stop => s.(running := false)
  }

  function Run(events: seq<Event>): State {
    if events == [] then INITIAL else Next(Run(events[..|events| - 1]), events[|events| - 1])
  }

  lemma KeepNone(imus: seq<Imu>, last: real)
    ensures Kept(imus[..0], last) == []
  {
  }

  lemma KeepOneMore(imus: seq<Imu>, n: nat, last: real)
    requires n < |imus|
    ensures Kept(imus[..n + 1], last) ==
            Kept(imus[..n], last) + (if last < 0.0 || imus[n].stamp > last then [imus[n]] else [])
  {
    assert imus[..n + 1][..n] == imus[..n];
  }

  // ---------------------------------------------------------------- the node

  class MonoInertialNode {
    var running: bool
    var imageBuffer: seq<Image>
    var imuBuffer: seq<Imu>
    var lastImageTime: real
    var inFlight: Option<Batch>
    ghost var log: seq<Entry>

    ghost function View(): State
      reads this
    {
      State(running, imageBuffer, imuBuffer, lastImageTime, inFlight, log)
    }

    constructor ()
      ensures View() == INITIAL
    {
      running, imageBuffer, imuBuffer, lastImageTime, inFlight := true, [], [], -1.0, None;
      log := [];
    }

    method ImageCallback(image: Image)
      modifies this
      ensures View() == Next(old(View()), ImageArrives(image))
    {
      imageBuffer := imageBuffer + [image];
    }

    method ImuCallback(imu: Imu)
      modifies this
      ensures View() == Next(old(View()), ImuArrives(imu))
    {
      imuBuffer := imuBuffer + [imu];
    }

    method Shutdown()
      modifies this
      ensures View() == Next(old(View()), Stop)
    {
      running := false;
    }

    /** The critical section of the worker loop, entered when the wait predicate holds. */
    method PopBatch()
      requires Ready(View())
      modifies this
      ensures View() == Next(old(View()), TakeBatch)
      ensures imageBuffer == old(imageBuffer)[1..]
      ensures if old(lastImageTime) >= 0.0 && old(imageBuffer)[0].stamp <= old(lastImageTime)
              then inFlight.None? && imuBuffer == old(imuBuffer)
              else inFlight.Some? && inFlight.value.image == old(imageBuffer)[0]
    {
      hide Kept;
      var image := imageBuffer[0];
      imageBuffer := imageBuffer[1..];
      var imageTime := image.stamp;
      if lastImageTime >= 0.0 && imageTime <= lastImageTime {
        return;
      }
      var measurements: seq<Imu> := [];
      ghost var all := imuBuffer;
      ghost var n := 0;
      KeepNone(all, lastImageTime);
      while imuBuffer != []
        invariant n <= |all| && imuBuffer == all[n..]
        invariant measurements == Kept(all[..n], lastImageTime)
        invariant n + CountUpTo(imuBuffer, imageTime) == CountUpTo(all, imageTime)
        invariant View() == old(View()).(imageBuffer := imageBuffer, imuBuffer := imuBuffer)
        invariant imageBuffer == old(imageBuffer)[1..]
        decreases |imuBuffer|
      {
        var imu := imuBuffer[0];
        if imu.stamp > imageTime {
          break;
        }
        KeepOneMore(all, n, lastImageTime);
        if lastImageTime < 0.0 || imu.stamp > lastImageTime {
          measurements := measurements + [imu];
        }
        imuBuffer := imuBuffer[1..];
        n := n + 1;
      }
      inFlight := Some(Batch(image, measurements));
    }

    method DropUnconverted()
      requires inFlight.Some?
      modifies this
      ensures View() == Next(old(View()), ConversionFails)
    {
      log := log + [Entry(inFlight.value, false)];
      inFlight := None;
    }

    /** Hand the batch to the tracker and remember its time. */
    method TrackMonocular() returns (batch: Batch)
      requires inFlight.Some?
      modifies this
      ensures batch == old(inFlight).value && View() == Next(old(View()), Tracks)
    {
      batch := inFlight.value;
      log := log + [Entry(batch, true)];
      inFlight := None;
      lastImageTime := batch.image.stamp;
    }
  }
}

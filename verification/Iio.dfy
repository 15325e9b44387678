/** The IIO buffer the driver pushes scans into. It may refuse a scan at any time. */
module Iio {
  import opened Errno
  import opened Frames

  /** Where the data of a scan came from; `serial` numbers the frames ever written into the FIFO. */
  datatype Origin = FromFifo(serial: nat) | FromRegisters | Torn

  class IioBuffer {
    var scans: seq<Scan>            // accepted so far
    ghost var origins: seq<Origin>
    ghost var refusals: nat

    ghost predicate Valid()
      reads this
    {
      |scans| == |origins|
    }

    constructor ()
      ensures Valid() && scans == [] && refusals == 0
    {
      scans, origins, refusals := [], [], 0;
    }

    /** iio_push_to_buffers_with_timestamp. */
    method Push(axes: Axes, timestamp: int, ghost origin: Origin) returns (ret: int)
      requires Valid()
      modifies this
      ensures Valid()
      ensures ret == 0 ==>
        && scans == old(scans) + [Scan(axes, timestamp)]
        && origins == old(origins) + [origin]
        && refusals == old(refusals)
      ensures ret != 0 ==>
        && ret == -EBUSY
        && scans == old(scans) && origins == old(origins)
        && refusals == old(refusals) + 1
    {
      if * {
        ret := -EBUSY;
        refusals := refusals + 1;
      } else {
        ret := 0;
        scans := scans + [Scan(axes, timestamp)];
        origins := origins + [origin];
      }
    }
  }
}

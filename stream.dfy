/** `MyStream`, a counting stream, and `MySink`, a sink that keeps what is
    flushed into it; their state only, without the async runtime. */
module StreamSink {
  import opened Ints
  import opened Wrappers

  /** `std::task::Poll`. */
  datatype Poll<T> = Ready(value: T) | Pending

  /** `MyStream`: yields `1, 2, …, max`, then ends. */
  class MyStream {
    var current: u32
    var max: u32

    /** `MyStream::new`. */
    constructor (max: u32)
      ensures current == 0 && this.max == max
    {
      current := 0;
      this.max := max;
    }

    /** `Stream::poll_next`: never pending; counts up to `max` and then
        reports the end without changing anything. */
    method PollNext() returns (p: Poll<Option<u32>>)
      modifies this
      ensures old(current) < max ==> current == old(current) + 1 && p == Ready(Some(current))
      ensures old(current) >= max ==> current == old(current) && p == Ready(None)
      ensures max == old(max)
    {
      if current < max {
        current := current + 1;
        return Ready(Some(current));
      }
      return Ready(None);
    }

    /** `Stream::size_hint`: no bounds are promised. */
    function SizeHint(): (r: (usize, Option<usize>))
      ensures r.0 == 0 && r.1.None?
    {
      (0, None)
    }
  }

  /** `MySink`: `data` holds what was flushed, `temp` the item last sent. */
  class MySink {
    var data: seq<u32>
    var temp: u32

    /** `MySink::new`. */
    constructor ()
      ensures data == [] && temp == 0
    {
      data := [];
      temp := 0;
    }

    /** `Sink::poll_ready`: only reserves capacity, which is not modelled. */
    method PollReady() returns (p: Poll<Result<(), ()>>)
      ensures p == Ready(Ok(()))
    {
      return Ready(Ok(()));
    }

    /** `Sink::start_send`: keeps the item until the next flush. */
    method StartSend(item: u32) returns (r: Result<(), ()>)
      modifies this
      ensures temp == item && data == old(data) && r == Ok(())
    {
      temp := item;
      return Ok(());
    }

    /** `Sink::poll_flush`: appends the pending item, even one flushed
        before. */
    method PollFlush() returns (p: Poll<Result<(), ()>>)
      modifies this
      ensures data == old(data) + [temp] && temp == old(temp) && p == Ready(Ok(()))
    {
      data := data + [temp];
      return Ready(Ok(()));
    }

    /** `Sink::poll_close`: nothing to do. */
    method PollClose() returns (p: Poll<Result<(), ()>>)
      ensures p == Ready(Ok(()))
    {
      return Ready(Ok(()));
    }

    /** `SinkExt::send` on this sink: ready, start_send, flush. */
    method Send(item: u32)
      modifies this
      ensures data == old(data) + [item] && temp == item
    {
      var _ := PollReady();
      var _ := StartSend(item);
      var _ := PollFlush();
    }
  }

  /** `while let Some(value) = stream.next().await` over `MyStream::new(max)`:
      the values `1..=max` in order. */
  method Drain(max: u32) returns (values: seq<u32>)
    ensures |values| == max && forall k :: 0 <= k < max ==> values[k] == k + 1
  {
    var stream := new MyStream(max);
    values := [];
    while true
      invariant stream.max == max && stream.current <= max && |values| == stream.current
      invariant forall k :: 0 <= k < |values| ==> values[k] == k + 1
      decreases max - stream.current
    {
      var p := stream.PollNext();
      match p.value {
        case Some(v) => values := values + [v];
        case None => return;
      }
    }
  }

  /** The last part of `main`: every item of `MyStream::new(max)` sent into a
      new `MySink` leaves `data == [1, …, max]`. */
  method Pump(max: u32) returns (data: seq<u32>)
    ensures |data| == max && forall k :: 0 <= k < max ==> data[k] == k + 1
  {
    var stream := new MyStream(max);
    var sink := new MySink();
    while true
      invariant stream.max == max && stream.current <= max && |sink.data| == stream.current
      invariant forall k :: 0 <= k < |sink.data| ==> sink.data[k] == k + 1
      decreases max - stream.current
    {
      var p := stream.PollNext();
      match p.value {
        case Some(v) => sink.Send(v);
        case None => return sink.data;
      }
    }
  }

  /** The first poll of `MyStream::new(5)` in `main`. */
  method FirstPoll() returns (p: Poll<Option<u32>>)
    ensures p == Ready(Some(1))
  {
    var stream := new MyStream(5);
    p := stream.PollNext();
  }
}

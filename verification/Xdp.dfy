/** The packet buffer of an XDP program: the frame at the end of a room whose front is headroom. */
module Xdp {
  import opened Wrappers
  import opened Words
  import opened Frames

  /** `room` is everything between the lowest address the head may move to and the end of data;
      the frame starts at `data`. Whatever the headroom holds stays there until it is overwritten. */
  datatype Buffer = Buffer(room: seq<byte>, data: nat)
  {
    predicate Valid() {
      data <= |room|
    }

    function Frame(): Frame
      requires Valid()
    {
      room[data..]
    }

    /** `bpf_xdp_adjust_head`: an Ethernet header must remain. */
    function Adjust(delta: int): (r: Option<Buffer>)
      requires Valid()
      ensures r.Some? ==> r.value.Valid()
    {
      if 0 <= data + delta && data + delta + ETH_LEN <= |room| then Some(Buffer(room, data + delta)) else None
    }
  }

  /** What a program does with the frame: drop it, hand it to the stack, or send it out. */
  datatype XdpResult = Aborted | PassUp(frame: Frame) | Sent(ifindex: u32, frame: Frame)

  datatype XdpAction = XDP_ABORTED | XDP_PASS | XDP_REDIRECT(ifindex: u32)

  /** The outcome of an action on the frame the buffer holds at the end. */
  function ResultOf(action: XdpAction, frame: Frame): XdpResult {
    match action
    case XDP_ABORTED => Aborted
    case XDP_PASS => PassUp(frame)
    case XDP_REDIRECT(i) => Sent(i, frame)
  }

  class XdpMd {
    const room: array<byte>
    var data: nat

    ghost predicate Valid()
      reads this
    {
      data <= room.Length
    }

    ghost function State(): Buffer
      reads this, room
    {
      Buffer(room[..], data)
    }

    constructor (room: array<byte>, data: nat)
      requires data <= room.Length
      ensures Valid() && this.room == room && this.data == data
    {
      this.room := room;
      this.data := data;
    }

    method AdjustHead(delta: int) returns (ret: int)
      requires Valid()
      modifies this`data
      ensures Valid()
      ensures ret == 0 <==> old(State()).Adjust(delta).Some?
      ensures State() == if ret == 0 then old(State()).Adjust(delta).value else old(State())
    {
      if data + delta < 0 || data + delta > room.Length - ETH_LEN {
        return -1;
      }
      data := data + delta;
      ret := 0;
    }
  }
}

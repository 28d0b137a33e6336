/** Network packet buffers, as the drivers see them. */
module Pbuf {
  import opened Bytes

  class PBuf {
    var next: PBuf?
    const payload: seq<u8>      // the len bytes the payload pointer designates; no driver here changes them
    const beyond: (u8, u8, u8)  // the bytes of the same buffer that follow them
    const rest: seq<u8>         // what the further buffers of its chain hold: tot_len is |payload| + |rest|
    var ref: nat

    constructor (payload: seq<u8>, beyond: (u8, u8, u8), rest: seq<u8>)
      ensures next == null && this.payload == payload && this.beyond == beyond && this.rest == rest && ref == 1
    {
      next, this.payload, this.beyond, this.rest, ref := null, payload, beyond, rest, 1;
    }
  }
}

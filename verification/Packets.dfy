/** The packets a controller asks for, by their lengths. */
module Packets {
  import opened Words

  /** The bytes a sequence of packets asks for. */
  function Sum(lengths: seq<u16>): nat {
    if lengths == [] then 0 else lengths[0] + Sum(lengths[1..])
  }
}

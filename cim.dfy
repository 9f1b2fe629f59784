/**
 * The root package's shared names: the frame opcodes, and the view of a registered
 * service that routing works with.
 */
module Cim {
  import opened GoStrings

  /** Frame opcodes, numbered as in section 5.2 of RFC 6455. */
  const OpContinuation: byte := 0x0
  const OpText: byte := 0x1
  const OpBinary: byte := 0x2
  const OpClose: byte := 0x8
  const OpPing: byte := 0x9
  const OpPong: byte := 0xa

  /**
   * A registered service as routing sees it: its id, its name and its metadata.
   * A key missing from the metadata reads as "", as indexing a Go map does.
   */
  datatype Service = Service(id: string, name: string, meta: map<string, string>)
  {
    function MetaValue(key: string): (v: string)
      ensures key in meta ==> v == meta[key]
      ensures key !in meta ==> v == ""
    {
      if key in meta then meta[key] else ""
    }
  }
}

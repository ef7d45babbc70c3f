/** PostgreSQL frontend message types, as the proxy, the parser and the handler know them. */
module MessageTypes {
  import opened ByteStrings

  const QUERY: byte := 0x51      // 'Q'
  const PARSE: byte := 0x50      // 'P'
  const BIND: byte := 0x42       // 'B'
  const DESCRIBE: byte := 0x44   // 'D'
  const SYNC: byte := 0x53       // 'S'
  const EXECUTE: byte := 0x45    // 'E'
  const TERMINATE: byte := 0x58  // 'X'
}

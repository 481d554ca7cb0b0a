/** The close codes of CloseFrame. */
module CloseCodes {
  const NORMAL: int := 1000
  const PROTOCOL_ERROR: int := 1002
  const NOCODE: int := 1005
  const ABNORMAL_CLOSE: int := 1006
  const NO_UTF8: int := 1007
  const TOOBIG: int := 1009
  const TLS_ERROR: int := 1015
  const NEVER_CONNECTED: int := -1
  const FLASHPOLICY: int := -3
}

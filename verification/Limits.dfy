/** Limits that several files share (llimits.h, luaconf.h). */
module Limits {

  /** The largest int, less two "for safety". */
  const MAX_INT: int := 0x7FFF_FFFF - 2

  /** LUAI_MAXCCALLS */
  const MAXCCALLS: nat := 200
}

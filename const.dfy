/** Protocol constants of the integration (custom_components/sbus/const.py). */
module SBusConst {

  // Attribute bytes
  const ATTR_REQUEST: int := 0x00
  const ATTR_RESPONSE: int := 0x01
  const ATTR_ACK: int := 0x02

  // Command opcodes used by the engines
  const CMD_READ_FLAG: int := 0x02
  const CMD_READ_REGISTER: int := 0x06
  const CMD_WRITE_FLAG: int := 0x0B
  const CMD_WRITE_REGISTER: int := 0x0E

  // System registers read for device identification
  const SYSREG_FIRMWARE: int := 600
  const SYSREG_PRODUCT_TYPE_START: int := 605
  const SYSREG_PRODUCT_TYPE_END: int := 608
  const SYSREG_HW_VERSION: int := 609
  const SYSREG_SERIAL_START: int := 611
  const SYSREG_SERIAL_END: int := 612

  // Protocol limits and validation
  const MIN_TELEGRAM_SIZE: int := 12
  const MAX_REGISTER_ADDRESS: int := 9999
  const MAX_REGISTER_COUNT: int := 32
  const MAX_REGISTER_VALUE: int := 0xFFFF_FFFF
}

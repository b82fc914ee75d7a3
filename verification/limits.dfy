/** The numbers both ends of the wire agree on. */
module Limits {
  const MAX_PAYLOAD: nat := 1024
  const MAX_FRAME: nat := 1032
  const CRC_BYTES: nat := 2
  const FRAME_DELIMITER_BYTES: nat := 1
  const MAX_STRING: nat := 64
  const MAX_DEPTH: nat := 8
  const MAX_ADDR: nat := 8
  const MAX_CONFIG_BUSES: nat := 8
  const MAX_CONFIG_DEVICES: nat := 16
  const MAX_EVENT_BODY: nat := 957
  const MAX_VALIDITY_SWEEP: nat := 48
  const MAX_PRESENCE_SWEEP: nat := 24
  const VCHANGE_MAX_BYTES: nat := 11
  const PCHANGE_MAX_BYTES: nat := 9
  const BLE_LAST_FLAG: nat := 128
  const BLE_INDEX_MASK: nat := 127
  const BLE_MIN_MTU: nat := 23
  const BLE_MAX_MTU: nat := 517
  const BLE_MAX_VALUE: nat := 512
  const BLE_TIMEOUT_MS: nat := 5000
}

/** When the X540 driver asks for a status report, and when it starts to reclaim descriptors. */
module TxThresholds {
  const TX_RS_THRESH := 64
  const TX_FREE_THRESH := 64
}

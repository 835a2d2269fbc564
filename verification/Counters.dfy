/** The counters of rtConnection.c are 32 bits wide. */
module Counters {
  const WRAP := 0x1_0000_0000
}

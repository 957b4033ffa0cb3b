/** Protocol constants (src/params.py and the limits declared beside the code that uses them). */
module Params {

  const TICKS_PER_LAPSE: int := 100_000_000
  const SUPPLY_CAP: int := 21_000_000 * TICKS_PER_LAPSE

  const EMISSION_DECAY_DENOMINATOR: int := 10_000_000_000_000_000_000_000_000_000_000_000_000_000
  const EMISSION_DECAY_NUMERATOR: int := 1386294265029292275522718605160789

  const BLOCK_SIZE_LIMIT: int := 10_000_000

  const VDF_ITERATIONS: int := 12_200_000
  const VDF_ADJUST_INTERVAL: int := 10_080
  const VDF_ADJUST_MIN_SECONDS: real := 100.0

  /** Times are whole microseconds. */
  const SECOND: int := 1_000_000

  const TIMESTAMP_SKEW: int := 30 * SECOND

  const MEMPOOL_MAX_BYTES: int := 100_000_000
  const MEMPOOL_TTL: int := 1800 * SECOND

  const FETCH_CHUNK: int := 50
  const SYNC_REQUEST_RETRIES: int := 2
  const MAX_SYNC_BLOCKS: int := 500

  const MAX_CHUNK_SIZE: int := 1400
  const MAX_CHUNK_TOTAL: int := 2000
  const CHUNK_ACK_MAX_ROUNDS: int := 4
  const MT_SYNC: int := 7

  /** The largest message the receiver puts together, in bytes. */
  const MESSAGE_LIMIT: int := MAX_CHUNK_TOTAL * MAX_CHUNK_SIZE

  const RATE_LIMIT_PER_SEC: real := 50.0
  const RATE_LIMIT_BURST: real := 100.0
  const RATE_BUCKET_IDLE_SECONDS: real := 60.0
  const RATE_BUCKETS_MAX: int := 20_000

  const STEM_HOPS_MIN: int := 2
  const STEM_HOPS_MAX: int := 8
  const MIN_PEERS_FOR_STEM: int := STEM_HOPS_MAX
}

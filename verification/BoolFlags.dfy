/** Flags that know since when they are set. */
module BoolFlags {
  /** An instant in nanoseconds since the zero time, and whether it is kept in UTC. */
  datatype Time = Time(nanos: int, utc: bool)

  const ZERO := Time(0, true)

  /** A flag is true since an instant; false is the zero time. */
  type BoolFlag = Time

  predicate IsTrue(f: BoolFlag) { f != ZERO }

  function SetTrue(f: BoolFlag, now: int): BoolFlag { if IsTrue(f) then f else Time(now, true) }

  function SetFalse(f: BoolFlag): BoolFlag { ZERO }
}

/** The records the source delivers: `domain.TimeEntry` and `domain.Project`. */
module Domain {
  import opened Wrappers
  import opened Civil

  /** Go's `int64`. */
  const MinInt64: int := -0x8000_0000_0000_0000
  const MaxInt64: int := 0x7fff_ffff_ffff_ffff
  type Int64 = x: int | MinInt64 <= x <= MaxInt64

  /** A time entry; `durationSec` is negative while the entry is still running. */
  datatype TimeEntry = TimeEntry(
    id: Int64,
    description: string,
    projectId: Option<Int64>,
    workspaceId: Option<Int64>,
    tags: seq<string>,
    start: Instant,
    stop: Option<Instant>,
    durationSec: Int64)

  /** A project; `at` is the last-update instant reported by the source. */
  datatype Project = Project(
    id: Int64,
    workspaceId: Int64,
    name: string,
    active: bool,
    isPrivate: bool,
    color: string,
    clientId: Option<Int64>,
    at: Instant)
}

// The build-time configuration, whatever it is.
module Config {
  import opened Words

  type Count = n: int | 0 < n witness 1

  // Times an int32_t can hold.
  type Interval = t: int | 0 < t < HALF witness 1

  const MAX_TASKS: Count           // MM_HALOW_SCHED_MAX_TASKS, 4 by default
  const PASSES: Count              // MM_HALOW_SCHED_PASSES, 4 by default
  const BUDGET: Interval               // MM_HALOW_SCHED_BUDGET_MS, 20 by default
  const CAP: Interval                  // MM_HALOW_SCHED_WAIT_MAX_MS, 10000 by default
}

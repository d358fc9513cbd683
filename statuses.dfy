/** The exported `statuses` enum: each harvest status name maps to itself. */
module Statuses {
  import opened Values

  const Enum: map<string, string> := map[
    "harvestPending" := "harvestPending",
    "harvestDone" := "harvestDone",
    "harvestError" := "harvestError",
    "postProcessingDone" := "postProcessingDone"
  ]

  /** The property access `statuses[key]`: the status name, or `undefined`
      for a key the enum does not have. */
  function Member(key: string): (v: Value)
    ensures key in Enum <==> v.Text?
    ensures key in Enum ==> v == Text(key)
    ensures key !in Enum ==> v == Undefined
  {
    if key in Enum then Text(Enum[key]) else Undefined
  }
}

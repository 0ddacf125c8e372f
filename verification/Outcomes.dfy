/** packages/sla/index.js: what a verdict can say of one call. */
module Outcomes {
  datatype Outcome = PASS | FAIL | DOWN
}

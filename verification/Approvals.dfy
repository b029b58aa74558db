/** internal/agent/policy.go: what comes of asking the person. */
module Approvals {
  datatype Approval = Approved | Declined | NobodyToAsk(why: string)
}

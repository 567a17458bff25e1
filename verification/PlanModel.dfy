/** Identities shared by the plan store and the delivery projection.  Rows are named by their
    unique keys rather than by surrogate ids. */
module PlanModel {

  /** Plans are unique per design package and consumer context. */
  datatype PlanId = PlanId(package: string, context: string)

  /** Activities are unique per plan and activity key. */
  datatype ActivityId = ActivityId(plan: PlanId, key: string)

  datatype ActivityState =
    | Planned | Ready | Active | Completed | Blocked | Skipped | Superseded
    | InProgress | Deferred | Cancelled
}

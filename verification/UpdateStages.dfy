/** The stages of an update attempt (internal/db/app_updates.go). */
module UpdateStages {
  datatype Stage = Pending | Pulling | Recreating | Verifying | Completed | Failed | RolledBack

  predicate Terminal(s: Stage) { s.Completed? || s.Failed? || s.RolledBack? }

  /** Which stage may come next. */
  predicate Follows(s: Stage, t: Stage) {
    match s
    case Pulling => t.Failed? || t.Recreating?
    case Recreating => t.Failed? || t.RolledBack? || t.Verifying?
    case Verifying => t.Failed? || t.RolledBack? || t.Completed?
    case _ => false
  }
}

/**
 * The three plan tiers and the limits each one sets on an upload: file size
 * in megabytes, number of rows, and how long the upload is kept.
 */
module Tiers {

  datatype Tier = FreeAnon | FreeAuth | Paid {
    function Name(): string {
      match this
      case FreeAnon => "free_anon"
      case FreeAuth => "free_auth"
      case Paid => "paid"
    }
  }

  datatype TierLimits = TierLimits(maxFileSizeMB: nat, maxRows: nat, retentionHours: real)

  /** The `TIERS` table. */
  function Limits(t: Tier): TierLimits {
    match t
    case FreeAnon => TierLimits(10, 100_000, 0.25)
    case FreeAuth => TierLimits(10, 100_000, 24.0)
    case Paid => TierLimits(35, 300_000, 24.0 * 30.0)
  }

  /**
   * The two free tiers allow the same file size and row count and differ
   * only in retention (15 minutes against a day); the paid tier allows more
   * of everything and keeps uploads for 30 days.
   */
  lemma LimitsOrdered()
    ensures Limits(FreeAnon).maxFileSizeMB == Limits(FreeAuth).maxFileSizeMB < Limits(Paid).maxFileSizeMB
    ensures Limits(FreeAnon).maxRows == Limits(FreeAuth).maxRows < Limits(Paid).maxRows
    ensures Limits(FreeAnon).retentionHours * 60.0 == 15.0 && Limits(FreeAuth).retentionHours == 24.0
    ensures Limits(FreeAnon).retentionHours < Limits(FreeAuth).retentionHours < Limits(Paid).retentionHours
    ensures Limits(Paid).retentionHours == 30.0 * Limits(FreeAuth).retentionHours
  {
  }

  /** Tier names are distinct, so a name identifies its tier. */
  lemma TierNamesDistinct(a: Tier, b: Tier)
    ensures a.Name() == b.Name() <==> a == b
  {
  }
}

/**
 * The decisions of the upload endpoint: which tier the caller is on, which
 * requests are turned away and with what status and message, and what is
 * profiled once a file is accepted.
 *
 * The database, storage, clock and CSV parser are outside the model: the
 * caller's id, profile row, current time (milliseconds since the epoch), the
 * estimated row count and the parsed CSV arrive as parameters.
 */
module UploadRoute {
  import opened Wrappers
  import opened JsSemantics
  import opened SeqUtil
  import opened Tiers
  import DataProfiler

  /** At most this many data rows are parsed and profiled. */
  const MaxRowsToProfile: nat := 50_000
  /** Bytes per megabyte in the size check. */
  const BytesPerMB: nat := 1024 * 1024

  /** The two columns of `user_profiles` that decide the tier. */
  datatype UserProfile = UserProfile(subscriptionStatus: Option<string>, currentPeriodEnd: Option<string>)

  /**
   * The end of the paid period in milliseconds: 0 when the column is absent
   * or empty, otherwise what the date parser makes of it (`None` for NaN).
   */
  function PeriodEnd(js: Parsers, profile: UserProfile): Option<int> {
    if profile.currentPeriodEnd.Some? && profile.currentPeriodEnd.value != "" then js.parseDate(profile.currentPeriodEnd.value)
    else Some(0)
  }

  /** An active subscription whose period ends strictly after `now`. */
  predicate HasPaidPeriod(js: Parsers, profile: Option<UserProfile>, now: int) {
    && profile.Some?
    && profile.value.subscriptionStatus == Some("active")
    && PeriodEnd(js, profile.value).Some?
    && PeriodEnd(js, profile.value).value > now
  }

  /**
   * `resolveTier`: no signed-in user (no id, or an empty one) is anonymous;
   * a user with an active subscription whose period has not ended is paid;
   * every other user, including one without a profile row, is free.
   */
  function ResolveTier(js: Parsers, userId: Option<string>, profile: Option<UserProfile>, now: int): (t: Tier)
    ensures t == FreeAnon <==> userId.None? || userId.value == ""
    ensures t == Paid <==> userId.Some? && userId.value != "" && HasPaidPeriod(js, profile, now)
    ensures t == FreeAuth <==> userId.Some? && userId.value != "" && !HasPaidPeriod(js, profile, now)
  {
    if userId.None? || userId.value == "" then FreeAnon
    else if profile.Some? && profile.value.subscriptionStatus == Some("active") then
      var periodEnd := PeriodEnd(js, profile.value);
      if periodEnd.Some? && periodEnd.value > now then Paid else FreeAuth
    else FreeAuth
  }

  /**
   * Without a period end, an active subscription is not paid at any time
   * after the epoch; and a paid tier lapses once `now` reaches the period end.
   */
  lemma PaidNeedsFuturePeriodEnd(js: Parsers, userId: Option<string>, profile: Option<UserProfile>, now: int, later: int)
    requires now <= later
    ensures profile.Some? && profile.value.currentPeriodEnd.None? && now >= 0 ==>
      ResolveTier(js, userId, profile, now) != Paid
    ensures ResolveTier(js, userId, profile, later) == Paid ==> ResolveTier(js, userId, profile, now) == Paid
  {
  }

  /** The file part of the form: its name and its size in bytes. */
  datatype UploadFile = UploadFile(name: string, size: nat)

  /** The `constraint` object of a 413 response. */
  datatype Constraint =
    | FileSizeConstraint(actualMB: real, limitMB: nat)
    | RowCountConstraint(actualRows: nat, limitRows: nat)

  /** An error response: HTTP status, message and, for a limit, the constraint broken. */
  datatype Rejection = Rejection(status: nat, error: string, constraint: Option<Constraint>)

  const NoFile := Rejection(400, "No file provided", None)
  const NotCsv := Rejection(400, "Only CSV files are supported", None)
  const TooLarge := "File size exceeds your plan limit. Your file is too large for the current tier."
  const TooManyRows := "Row count exceeds your plan limit. Your dataset has too many rows for the current tier."
  const NoData := Rejection(400, "CSV has no headers or no data rows", None)

  /** `file.name.toLowerCase().endsWith(".csv")`. */
  predicate IsCsvName(name: string) {
    EndsWithIgnoringCase(name, ".csv")
  }

  function FileSizeMB(size: nat): real {
    size as real / BytesPerMB as real
  }

  /** `Math.round(fileSizeMB * 10) / 10`: the size rounded to one decimal. */
  function ReportedSizeMB(size: nat): real {
    RoundHalfUp(FileSizeMB(size) * 10.0) as real / 10.0
  }

  /**
   * The checks before the file is stored, in order: a file must be present,
   * its name must end in ".csv" in any case, its size in megabytes must not
   * exceed the tier's limit, and the estimated row count must not exceed the
   * tier's row limit. `None` admits the request.
   */
  function CheckUpload(limits: TierLimits, file: Option<UploadFile>, estimatedRows: nat): (r: Option<Rejection>)
    ensures file.None? ==> r == Some(NoFile)
    ensures file.Some? && !IsCsvName(file.value.name) ==> r == Some(NotCsv)
    ensures r.None? <==>
      && file.Some? && IsCsvName(file.value.name)
      && FileSizeMB(file.value.size) <= limits.maxFileSizeMB as real
      && estimatedRows <= limits.maxRows
    ensures r.Some? && r.value.status == 413 ==> file.Some? && IsCsvName(file.value.name)
  {
    if file.None? then Some(NoFile)
    else if !IsCsvName(file.value.name) then Some(NotCsv)
    else
      var sizeMB := FileSizeMB(file.value.size);
      if sizeMB > limits.maxFileSizeMB as real then
        Some(Rejection(413, TooLarge, Some(FileSizeConstraint(ReportedSizeMB(file.value.size), limits.maxFileSizeMB))))
      else if estimatedRows > limits.maxRows then
        Some(Rejection(413, TooManyRows, Some(RowCountConstraint(estimatedRows, limits.maxRows))))
      else None
  }

  /** The megabyte comparison is the byte comparison `size > limit * 1024 * 1024`. */
  lemma FileSizeCheckInBytes(size: nat, limitMB: nat)
    ensures FileSizeMB(size) > limitMB as real <==> size > limitMB * BytesPerMB
  {
    var b := BytesPerMB as real;
    assert FileSizeMB(size) * b == size as real;
    assert (limitMB * BytesPerMB) as real == (limitMB as real) * b;
  }

  /**
   * A 413 response names the limit that was broken: a file over the size
   * limit is refused for its size whatever its row count, with the size
   * reported to one decimal (never below the limit, and within 0.05 MB of the
   * true size); otherwise too many rows are refused with the estimate and the
   * row limit.
   */
  lemma LimitRejections(limits: TierLimits, file: UploadFile, estimatedRows: nat)
    requires IsCsvName(file.name)
    ensures var r := CheckUpload(limits, Some(file), estimatedRows);
      && (file.size > limits.maxFileSizeMB * BytesPerMB ==>
            && r.Some? && r.value.status == 413 && r.value.error == TooLarge
            && r.value.constraint == Some(FileSizeConstraint(ReportedSizeMB(file.size), limits.maxFileSizeMB))
            && ReportedSizeMB(file.size) >= limits.maxFileSizeMB as real
            && FileSizeMB(file.size) - 0.05 < ReportedSizeMB(file.size) <= FileSizeMB(file.size) + 0.05)
      && (file.size <= limits.maxFileSizeMB * BytesPerMB && estimatedRows > limits.maxRows ==>
            r == Some(Rejection(413, TooManyRows, Some(RowCountConstraint(estimatedRows, limits.maxRows)))))
  {
    FileSizeCheckInBytes(file.size, limits.maxFileSizeMB);
    if file.size > limits.maxFileSizeMB * BytesPerMB {
      var x := FileSizeMB(file.size) * 10.0;
      var k := RoundHalfUp(x);
      assert x > (10 * limits.maxFileSizeMB) as real;
      assert k >= 10 * limits.maxFileSizeMB;
    }
  }

  /** One byte over ten megabytes is refused, yet reported as 10.0 MB against a limit of 10. */
  lemma SizeJustOverLimitReportsLimit(name: string)
    requires IsCsvName(name)
    ensures CheckUpload(Limits(FreeAuth), Some(UploadFile(name, 10 * BytesPerMB + 1)), 0)
      == Some(Rejection(413, TooLarge, Some(FileSizeConstraint(10.0, 10))))
  {
    LimitRejections(Limits(FreeAuth), UploadFile(name, 10 * BytesPerMB + 1), 0);
    var x := FileSizeMB(10 * BytesPerMB + 1) * 10.0;
    assert 100.0 < x < 100.5;
  }

  /**
   * Whatever a free tier admits, the paid tier admits; the two free tiers
   * admit and refuse exactly the same requests.
   */
  lemma TierAdmissionMonotone(free: Tier, file: Option<UploadFile>, estimatedRows: nat)
    requires free != Paid
    ensures CheckUpload(Limits(free), file, estimatedRows).None? ==> CheckUpload(Limits(Paid), file, estimatedRows).None?
    ensures CheckUpload(Limits(free), file, estimatedRows) == CheckUpload(Limits(FreeAnon), file, estimatedRows)
  {
  }

  /** The parsed CSV: its header fields and its data rows. */
  datatype ParsedCsv = ParsedCsv(headers: seq<string>, rows: seq<DataProfiler.Row>)

  /** The outcome of a request: an error response, or the profiles to store. */
  datatype Outcome =
    | Rejected(rejection: Rejection)
    | Profiled(
        tier: Tier,
        expiresAt: real,
        rowsProfiled: nat,
        profiles: seq<DataProfiler.ColumnProfile>,
        summary: DataProfiler.DatasetSummary)

  /**
   * `POST`, with storage left out: the tier, the admission checks, then the
   * parsed CSV cut to its first 50,000 rows, refused when it has no header or
   * no row, and otherwise profiled. The upload expires `retentionHours` after
   * `now`.
   */
  function HandleUpload(
    js: Parsers, userId: Option<string>, profile: Option<UserProfile>, now: int,
    file: Option<UploadFile>, estimatedRows: nat, csv: ParsedCsv): (o: Outcome)
  {
    var tier := ResolveTier(js, userId, profile, now);
    var limits := Limits(tier);
    var admission := CheckUpload(limits, file, estimatedRows);
    if admission.Some? then Rejected(admission.value)
    else
      var rows := Take(csv.rows, MaxRowsToProfile);
      if |csv.headers| == 0 || |rows| == 0 then Rejected(NoData)
      else
        var profiles := DataProfiler.ProfileColumns(js, rows, csv.headers);
        Profiled(tier, now as real + limits.retentionHours * 60.0 * 60.0 * 1000.0, |rows|,
                 profiles, DataProfiler.ComputeDatasetProfile(profiles))
  }

  /**
   * A request is profiled exactly when it passes the admission checks of the
   * caller's tier and the CSV has a header and a row. Then every header gets
   * its profile, built from at most the first 50,000 rows, and the upload
   * expires after the tier's retention: 15 minutes for an anonymous caller.
   */
  lemma HandleUploadProfiles(
    js: Parsers, userId: Option<string>, profile: Option<UserProfile>, now: int,
    file: Option<UploadFile>, estimatedRows: nat, csv: ParsedCsv)
    ensures var o := HandleUpload(js, userId, profile, now, file, estimatedRows, csv);
      var tier := ResolveTier(js, userId, profile, now);
      && (o.Profiled? <==>
            CheckUpload(Limits(tier), file, estimatedRows).None? && |csv.headers| > 0 && |csv.rows| > 0)
      && (o.Profiled? ==>
            && o.tier == tier
            && o.rowsProfiled == (if |csv.rows| < MaxRowsToProfile then |csv.rows| else MaxRowsToProfile)
            && |o.profiles| == |csv.headers|
            && (forall i :: 0 <= i < |csv.headers| ==>
                  o.profiles[i] == DataProfiler.ProfileColumn(js, csv.rows[..o.rowsProfiled], csv.headers[i], i))
            && o.expiresAt == now as real + Limits(tier).retentionHours * 3_600_000.0
            && (tier == FreeAnon ==> o.expiresAt == now as real + 900_000.0))
  {
  }

  /**
   * The order of the early returns: no file is 400 before anything else, a
   * name not ending in ".csv" is 400 before any limit, and a CSV with no
   * header or no row is 400 only once the limits have passed.
   */
  lemma HandleUploadRejections(
    js: Parsers, userId: Option<string>, profile: Option<UserProfile>, now: int,
    file: Option<UploadFile>, estimatedRows: nat, csv: ParsedCsv)
    ensures var o := HandleUpload(js, userId, profile, now, file, estimatedRows, csv);
      var limits := Limits(ResolveTier(js, userId, profile, now));
      && (file.None? ==> o == Rejected(NoFile))
      && (file.Some? && !IsCsvName(file.value.name) ==> o == Rejected(NotCsv))
      && (CheckUpload(limits, file, estimatedRows).Some? ==> o == Rejected(CheckUpload(limits, file, estimatedRows).value))
      && (o == Rejected(NoData) <==>
            CheckUpload(limits, file, estimatedRows).None? && (|csv.headers| == 0 || |csv.rows| == 0))
  {
  }
}

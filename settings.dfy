/**
 * The VAULTSHARE settings the core reads (config/settings/base.py), and the
 * defaults that the cleanup service substitutes for keys missing from it.
 */
module Settings {

  /** Largest accepted upload, in bytes (100 MiB). */
  const MaxFileSize: int := 100 * 1024 * 1024

  /** Longest accepted expiry window, in hours (7 days). */
  const MaxExpiryHours: int := 168

  /** Number of files one cleanup run processes at most. */
  const CleanupBatchSize: nat := 100

  /** MAX_FILE_AGE_DAYS is absent from VAULTSHARE, so the cleanup's default of 30 applies. */
  const MaxFileAgeDays: int := 30
}

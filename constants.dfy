/**
 * The constants package: default waits, in nanoseconds as Go's `time.Duration` counts
 * them, and the metadata keys that carry a client's app and account.
 */
module Constants {
  const Second: nat := 1_000_000_000
  const Minute: nat := 60 * Second

  const DefaultReadWait: nat := 3 * Minute
  const DefaultWriteWait: nat := 10 * Second
  const DefaultLoginWait: nat := 10 * Second
  const DefaultHeartBeat: nat := Minute

  const MetaKeyApp: string := "app"
  const MetaKeyAccount: string := "account"
}

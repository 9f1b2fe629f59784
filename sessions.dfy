/**
 * The login session record (`pkt.Session`) as the services store and pass it around.
 * Only the fields the modelled code reads or writes are kept.
 */
module Sessions {
  datatype Session = Session(
    channelID: string,
    gateID: string,
    account: string,
    remoteIP: string,
    app: string,
    tags: seq<string>)

  /** A session with only the given fields set, the rest empty. */
  const Blank: Session := Session("", "", "", "", "", [])
}

/** Status records of monitored targets. */
module Records {
  import opened Common

  datatype Status = Unknown | Healthy | Degrade | Failure | Aborted

  /** A target or source URL; its text is its identity. */
  datatype URL = URL(scheme: string, rest: string)

  /** A message with its masked form: the text with its ephemeral port numbers blanked out. Equal texts
    * have equal masked forms, so comparing masked forms is `isSameIncidentMessage`. */
  datatype Message = Message(text: string, masked: string)

  datatype Record = Record(time: Time, status: Status, target: URL, message: Message)

  /** Records about Ayd itself and about alerts stay out of the probe history. */
  predicate Internal(u: URL) {
    u.scheme == "alert" || u.scheme == "ayd"
  }
}

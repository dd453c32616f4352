/** The guild master's id, read from the environment as `HOST_ID`; it may be unset. */
module Access {
  import opened Wrappers

  /** `interaction.user.id !== hostId` fails exactly when the id is set and is the
      caller's: with `HOST_ID` unset nobody is the host. */
  predicate IsHost(callerId: string, hostId: Option<string>) {
    hostId == Some(callerId)
  }

  /** `if (!hostId)`: an unset or empty `HOST_ID` is falsy, so not configured. */
  predicate HostConfigured(hostId: Option<string>) {
    hostId.Some? && hostId.value != ""
  }
}

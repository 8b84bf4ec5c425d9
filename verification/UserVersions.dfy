/** What a blob database's user_version says of the legacy rows. */
module UserVersions {

  const UNSTARTED := 0
  const ADOPTION_COMPLETE := 1
  const RECOVERY_REBUILT := 2
}

/** The three-way check reading that every git provider reports to the merge gate. */
module PrShared {

  datatype CheckState = Green | Pending | Failing

  /** `supported` is false when the provider exposes no check API. */
  datatype ChecksStatus = ChecksStatus(supported: bool, state: CheckState)
}

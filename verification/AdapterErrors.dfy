/** The error codes of the publication and snapshot paths; `Other` stands for the codes a caller's verifier may
    return. */
module AdapterErrors {
  datatype Code =
    | UnsupportedPublicationProfile
    | OutputPublish
    | OutputSymlink
    | OutputExists
    | InputAlias
    | CrossOutputAlias
    | UnsafeOutputPath
    | OutputIdentityUncertain
    | OutputIntegrityUncertain
    | DurabilityUncertain
    | OutputRollbackUncertain
    | EntropyUnavailable
    | UnsupportedInputProfile
    | InputOpen
    | InputType
    | InputSymlink
    | InputChanged
    | InputTooLarge
    | Other(number: nat)
}

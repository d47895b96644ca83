/** Why a checksummed patch is refused. */
module PatchErrors {
  datatype PatchError =
    | Malformed
    | Truncated
    | SourceSize
    | SourceCrc
    | TargetCrc
    | PatchCrc
}

/** The trust states a package can resolve to. */
module TrustStates {
  datatype TrustState =
    | Trusted
    | Unsigned
    | UnknownPublisher
    | ExpiredCertificate
    | RevokedCertificate
    | InvalidSignature
    | Tampered

  function TrustName(t: TrustState): string {
    match t
    case Trusted => "Trusted"
    case Unsigned => "Unsigned"
    case UnknownPublisher => "UnknownPublisher"
    case ExpiredCertificate => "ExpiredCertificate"
    case RevokedCertificate => "RevokedCertificate"
    case InvalidSignature => "InvalidSignature"
    case Tampered => "Tampered"
  }
}

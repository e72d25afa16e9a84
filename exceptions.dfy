/**
 * The protocol's exception hierarchy (exceptions.py): a base class and nine
 * subclasses, each subclass carrying a fixed numeric `code`, and the agent's
 * mapping from a raised exception to the code put on the wire (agent.py).
 */
module Exceptions {
  import opened Wrappers

  /** The base class first, then the nine subclasses in declaration order. */
  datatype ErrorKind =
    | LSNMPvSError
    | DecodingError
    | InvalidTagError
    | UnknownMessageTypeError
    | DuplicateMessageError
    | InvalidIIDError
    | InvalidValueTypeError
    | UnsupportedValueError
    | IIDValueMismatchError
    | NoDevicesRegisteredError

  /** A raised exception: its class and the message it was constructed with. */
  datatype Error = Error(kind: ErrorKind, message: string)

  /** The code the agent uses for an exception that has no `code` attribute. */
  const FallbackCode: nat := 1

  /** The subclasses in the order exceptions.py declares them. */
  const DeclaredKinds: seq<ErrorKind> := [
    DecodingError, InvalidTagError, UnknownMessageTypeError, DuplicateMessageError,
    InvalidIIDError, InvalidValueTypeError, UnsupportedValueError, IIDValueMismatchError,
    NoDevicesRegisteredError
  ]

  /** The class attribute `code`; the base class declares none. */
  function ClassCode(k: ErrorKind): (c: Option<nat>)
    ensures c.None? <==> k == LSNMPvSError
    ensures c.Some? ==> 1 <= c.value <= 9
  {
    match k
    case LSNMPvSError => None
    case DecodingError => Some(1)
    case InvalidTagError => Some(2)
    case UnknownMessageTypeError => Some(3)
    case DuplicateMessageError => Some(4)
    case InvalidIIDError => Some(5)
    case InvalidValueTypeError => Some(6)
    case UnsupportedValueError => Some(7)
    case IIDValueMismatchError => Some(8)
    case NoDevicesRegisteredError => Some(9)
  }

  /** `Agent._map_exception_to_code`: the exception's `code`, or 1 when it has none. */
  function MapExceptionToCode(k: ErrorKind): (c: nat)
    ensures 1 <= c <= 9
    ensures k == LSNMPvSError ==> c == FallbackCode
    ensures k != LSNMPvSError ==> ClassCode(k) == Some(c)
  {
    match ClassCode(k)
    case Some(code) => code
    case None => FallbackCode
  }

  /** Codes are 1..9 in declaration order, and every subclass is among the declared ones. */
  lemma CodesFollowDeclarationOrder()
    ensures |DeclaredKinds| == 9
    ensures forall i :: 0 <= i < |DeclaredKinds| ==> ClassCode(DeclaredKinds[i]) == Some(i + 1)
    ensures forall k :: k != LSNMPvSError <==> k in DeclaredKinds
  {
  }

  /** Two subclasses with the same code are the same subclass. */
  lemma CodesDistinct(a: ErrorKind, b: ErrorKind)
    requires ClassCode(a).Some? && ClassCode(a) == ClassCode(b)
    ensures a == b
  {
  }

  /** The mapping sends the nine subclasses to nine different codes, each its own. */
  lemma MappingInjectiveOnSubclasses(a: ErrorKind, b: ErrorKind)
    requires a != LSNMPvSError && b != LSNMPvSError
    ensures MapExceptionToCode(a) == MapExceptionToCode(b) <==> a == b
  {
    if MapExceptionToCode(a) == MapExceptionToCode(b) {
      CodesDistinct(a, b);
    }
  }

  /** The fallback for the base class coincides with DecodingError's own code. */
  lemma FallbackIsDecodingCode()
    ensures MapExceptionToCode(LSNMPvSError) == MapExceptionToCode(DecodingError) == 1
  {
  }
}

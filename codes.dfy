/** The closed error-code enumeration exposed across the C boundary, and the
    translation of a Go error value into it (GetErrCode). */
module Codes {
  import opened Wrappers

  /** The C enum EtcdErrCode. Members 0..16 mirror the gRPC status codes; members
      17..26 are the system's own codes (their spellings are the enum's own). */
  datatype EtcdErrCode =
    | OK | Canceled | Unknown | InvalidArgument | DeadlineExceeded | NotFound
    | AlreadyExists | PermissionDenied | ResourceExhausted | FailedPrecondition
    | Aborted | OutOfRange | Unimplemented | Internal | Unavailable | DataLoss
    | Unauthenticated
    | TxnUnkownOp | ObjectNotExist | ErrObjectType | KeyNotExist
    | CampaignInternalErr | CampaignLeaderSuccess
    | ObserverLeaderInternal | ObserverLeaderChange
    | LeaderResignErr | LeaderResiginSuccess
  {
    /** The integer the C enum assigns to this member. */
    function Number(): (n: nat)
      ensures n <= 26
      ensures n <= 16 <==> !IsCustom()
    {
      match this
      case OK => 0
      case Canceled => 1
      case Unknown => 2
      case InvalidArgument => 3
      case DeadlineExceeded => 4
      case NotFound => 5
      case AlreadyExists => 6
      case PermissionDenied => 7
      case ResourceExhausted => 8
      case FailedPrecondition => 9
      case Aborted => 10
      case OutOfRange => 11
      case Unimplemented => 12
      case Internal => 13
      case Unavailable => 14
      case DataLoss => 15
      case Unauthenticated => 16
      case TxnUnkownOp => 17
      case ObjectNotExist => 18
      case ErrObjectType => 19
      case KeyNotExist => 20
      case CampaignInternalErr => 21
      case CampaignLeaderSuccess => 22
      case ObserverLeaderInternal => 23
      case ObserverLeaderChange => 24
      case LeaderResignErr => 25
      case LeaderResiginSuccess => 26
    }

    /** The members the system defines itself rather than taking from gRPC. */
    predicate IsCustom() {
      || TxnUnkownOp? || ObjectNotExist? || ErrObjectType? || KeyNotExist?
      || CampaignInternalErr? || CampaignLeaderSuccess?
      || ObserverLeaderInternal? || ObserverLeaderChange?
      || LeaderResignErr? || LeaderResiginSuccess?
    }
  }

  /** The two sentinel error values of Go's context package that GetErrCode compares against. */
  datatype Sentinel = NoSentinel | ContextCanceled | ContextDeadlineExceeded

  /** A Go `error` as GetErrCode sees it: nil, or a value of which it knows
      whether it is an etcd server error (and its code), whether it carries a
      gRPC status (and its code), and whether it is one of the context sentinels.
      gRPC codes are unsigned numbers and need not be below 17. */
  datatype Error =
    | Nil
    | Failure(asEtcdError: Option<nat>, asStatus: Option<nat>, sentinel: Sentinel)

  /** The gRPC code GetErrCode settles on for `err`. A nil error carries the OK
      status; otherwise the first classification that applies wins. */
  function Classify(err: Error): nat
  {
    match err
    case Nil => 0
    case Failure(etcd, status, sentinel) =>
      if etcd.Some? then etcd.value
      else if status.Some? then status.value
      else if sentinel == ContextCanceled then 1
      else if sentinel == ContextDeadlineExceeded then 4
      else 2
  }

  /** The switch from a gRPC code to the enum member with the same number. */
  function FromGrpcCode(c: nat): (r: EtcdErrCode)
    ensures c <= 16 ==> r.Number() == c
    ensures 16 < c ==> r == Unknown
    ensures !r.IsCustom()
  {
    if c == 0 then OK
    else if c == 1 then Canceled
    else if c == 2 then Unknown
    else if c == 3 then InvalidArgument
    else if c == 4 then DeadlineExceeded
    else if c == 5 then NotFound
    else if c == 6 then AlreadyExists
    else if c == 7 then PermissionDenied
    else if c == 8 then ResourceExhausted
    else if c == 9 then FailedPrecondition
    else if c == 10 then Aborted
    else if c == 11 then OutOfRange
    else if c == 12 then Unimplemented
    else if c == 13 then Internal
    else if c == 14 then Unavailable
    else if c == 15 then DataLoss
    else if c == 16 then Unauthenticated
    else Unknown
  }

  /** Every gRPC-range member is reached from its own number: the switch loses nothing. */
  lemma {:induction false} FromGrpcCodeOfNumber(x: EtcdErrCode)
    requires !x.IsCustom()
    ensures FromGrpcCode(x.Number()) == x
  {
  }

  /** Translates a store error into the boundary enum. Total; the operation
      name the source passes is used only for logging and is not modelled. */
  function GetErrCode(err: Error): (r: EtcdErrCode)
    ensures err.Nil? ==> r == OK
    ensures !r.IsCustom()
    ensures err.Failure? && err.asEtcdError.Some? ==>
              r == FromGrpcCode(err.asEtcdError.value)
    ensures err.Failure? && err.asEtcdError.None? && err.asStatus.Some? ==>
              r == FromGrpcCode(err.asStatus.value)
    ensures err.Failure? && err.asEtcdError.None? && err.asStatus.None? ==>
              r == match err.sentinel
                   case ContextCanceled => Canceled
                   case ContextDeadlineExceeded => DeadlineExceeded
                   case NoSentinel => Unknown
  {
    FromGrpcCode(Classify(err))
  }
}

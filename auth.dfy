/**
 * The authorization gate put in front of every route: the caller's identity comes
 * from three request headers; a missing one is answered 401, a role outside the
 * route's allowed roles 403, and otherwise the request carries the caller and the
 * route runs.
 */
module Auth {
  import opened Common
  import opened Query

  /** The identity headers of a request, None when absent. */
  datatype Headers = Headers(userId: Option<string>, academyId: Option<string>, role: Option<string>)

  /** A header value is present when it is there and not the empty string. */
  predicate Present(h: Option<string>) {
    h.Some? && h.value != ""
  }

  predicate AllPresent(h: Headers) {
    Present(h.userId) && Present(h.academyId) && Present(h.role)
  }

  /** The name a role has in the header. */
  function RoleName(r: Role): string {
    match r
    case ATHLETE => "ATHLETE"
    case COACH => "COACH"
    case PARENT => "PARENT"
    case ADMIN => "ADMIN"
  }

  /** The caller a request carries once admitted; the ids are the headers converted
      by `toNumber`. */
  datatype Caller = Caller(id: int, email: string, role: Role, academyId: int)

  const MockEmail: string := "mock@example.com"

  datatype Decision = Reject(error: Error) | Admit(caller: Caller)

  /** authorize(allowedRoles): presence first, then role membership. */
  function Decide(h: Headers, allowed: seq<Role>, toNumber: string -> int): (d: Decision)
    ensures d == Reject(Unauthorized) <==> !AllPresent(h)
    ensures d == Reject(Forbidden) <==> AllPresent(h) && forall r :: r in allowed ==> RoleName(r) != h.role.value
    ensures d.Reject? ==> d.error == Unauthorized || d.error == Forbidden
    ensures d.Admit? ==> && AllPresent(h)
                         && d.caller.role in allowed && RoleName(d.caller.role) == h.role.value
                         && d.caller.id == toNumber(h.userId.value)
                         && d.caller.academyId == toNumber(h.academyId.value)
  {
    if !AllPresent(h) then Reject(Unauthorized)
    else
      match First(allowed, (r: Role) => RoleName(r) == h.role.value)
      case None => Reject(Forbidden)
      case Some(r) => Admit(Caller(toNumber(h.userId.value), MockEmail, r, toNumber(h.academyId.value)))
  }

  /** A missing header is answered 401 whatever the role and the allowed roles are:
      the role is never consulted before presence. */
  lemma MissingHeaderWins(h: Headers, allowed: seq<Role>, other: seq<Role>, toNumber: string -> int)
    requires !AllPresent(h)
    ensures Decide(h, allowed, toNumber) == Decide(h, other, toNumber) == Reject(Unauthorized)
  {
  }

  /** Distinct roles go by distinct header names. */
  lemma RoleNamesDistinct(a: Role, b: Role)
    ensures RoleName(a) == RoleName(b) <==> a == b
  {
    if a != b {
      assert RoleName(a)[0] != RoleName(b)[0] || RoleName(a)[1] != RoleName(b)[1];
    }
  }

  /** Admission depends only on whether the header's role is allowed: the admitted
      caller's role is the one the header names. */
  lemma AdmittedRoleIsHeaderRole(h: Headers, allowed: seq<Role>, toNumber: string -> int, r: Role)
    requires AllPresent(h) && h.role.value == RoleName(r) && r in allowed
    ensures Decide(h, allowed, toNumber).Admit? && Decide(h, allowed, toNumber).caller.role == r
  {
    RoleNamesDistinct(Decide(h, allowed, toNumber).caller.role, r);
  }

  /** The request as the gate sees it: the headers it came with and the caller the
      gate attaches to it. */
  class Request {
    const headers: Headers
    var caller: Option<Caller>

    constructor (headers: Headers)
      ensures this.headers == headers && caller == None
    {
      this.headers := headers;
      caller := None;
    }

    /** Runs the gate; on admission the caller is attached and `next` is to be called,
        on rejection the request is left as it was. */
    method Authorize(allowed: seq<Role>, toNumber: string -> int) returns (d: Decision)
      modifies this`caller
      ensures d == Decide(headers, allowed, toNumber)
      ensures d.Admit? ==> caller == Some(d.caller)
      ensures d.Reject? ==> caller == old(caller)
    {
      d := Decide(headers, allowed, toNumber);
      if d.Admit? {
        caller := Some(d.caller);
      }
    }
  }
}

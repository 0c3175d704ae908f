/**
  The request permission policy shared by the three resource controllers:
  reads are open to any authenticated user, writes only to staff (teachers).
 */
module Permissions {
  import opened Records

  /** The methods the REST framework treats as read-only. */
  const SafeMethods: set<string> := {"GET", "HEAD", "OPTIONS"}

  /**
    The policy decision for a request with the given HTTP method (verb) made by `user`.
    The method name is compared verbatim, so any method outside `SafeMethods`
    (including unknown or lower-case spellings) is treated as a write.
   */
  predicate HasPermission(verb: string, user: User)
    ensures HasPermission(verb, user) ==> user.isAuthenticated
    ensures verb in SafeMethods ==> (HasPermission(verb, user) <==> user.isAuthenticated)
    ensures verb !in SafeMethods ==>
              (HasPermission(verb, user) <==> user.isAuthenticated && user.isStaff)
  {
    if verb in SafeMethods then user.isAuthenticated
    else user.isAuthenticated && user.isStaff
  }

  /** The capability tiers a caller can hold; there are no others. */
  datatype Tier = Anonymous | ReadOnly | Teacher

  function Rank(t: Tier): nat
  {
    match t
    case Anonymous => 0
    case ReadOnly => 1
    case Teacher => 2
  }

  function TierOf(user: User): (t: Tier)
    ensures t == Anonymous <==> !user.isAuthenticated
    ensures t == Teacher <==> user.isAuthenticated && user.isStaff
  {
    if !user.isAuthenticated then Anonymous
    else if user.isStaff then Teacher
    else ReadOnly
  }

  /** The least tier a request with this method needs. */
  function RequiredTier(verb: string): (t: Tier)
    ensures t != Anonymous
  {
    if verb in SafeMethods then ReadOnly else Teacher
  }

  /**
    Reference reading of the policy: a request is allowed exactly when the
    caller's tier reaches the tier the verb requires.
   */
  lemma PolicyIsTierComparison(verb: string, user: User)
    ensures HasPermission(verb, user) <==> Rank(TierOf(user)) >= Rank(RequiredTier(verb))
  {
  }

  /** An unauthenticated caller is refused whatever it asks for. */
  lemma AnonymousAlwaysDenied(verb: string, user: User)
    requires !user.isAuthenticated
    ensures !HasPermission(verb, user)
  {
  }

  /** Granting staff status never takes a permission away. */
  lemma StaffIsMonotone(verb: string, user: User)
    ensures HasPermission(verb, user) ==> HasPermission(verb, user.(isStaff := true))
  {
  }

  /** Whoever may write may also read. */
  lemma WritesImplyReads(verb: string, read: string, user: User)
    requires verb !in SafeMethods && read in SafeMethods
    ensures HasPermission(verb, user) ==> HasPermission(read, user)
  {
  }

  /** The policy for the seven usual HTTP verbs, as a truth table. */
  lemma TruthTable(user: User)
    ensures HasPermission("GET", user) == user.isAuthenticated
    ensures HasPermission("HEAD", user) == user.isAuthenticated
    ensures HasPermission("OPTIONS", user) == user.isAuthenticated
    ensures HasPermission("POST", user) == (user.isAuthenticated && user.isStaff)
    ensures HasPermission("PUT", user) == (user.isAuthenticated && user.isStaff)
    ensures HasPermission("PATCH", user) == (user.isAuthenticated && user.isStaff)
    ensures HasPermission("DELETE", user) == (user.isAuthenticated && user.isStaff)
  {
  }
}

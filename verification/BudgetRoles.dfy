/** Role labels, role scopes and per-role meters of the run budget
    (libreevolve/core/budget_contract.py, lines 868-1035). */
module BudgetRoles {
  import opened Text

  // ----- labels and scopes

  predicate LabelStart(c: char) {
    'A' <= c <= 'Z' || 'a' <= c <= 'z' || '0' <= c <= '9'
  }

  predicate LabelChar(c: char) {
    LabelStart(c) || c == '_' || c == '.' || c == ':' || c == '-'
  }

  /** `_BUDGET_ROLE_RE`. */
  predicate ValidLabel(role: string) {
    1 <= |role| <= 128 && LabelStart(role[0]) && forall c <- role :: LabelChar(c)
  }

  const LABEL_SIGNS: set<char> := {'_', '.', ':', '-'}

  /** A role label has 1 to 128 letters, digits and signs, and starts with a letter or digit. */
  lemma {:induction false} LabelMeaning(role: string)
    ensures ValidLabel(role) <==>
              && 0 < |role| < 129 && role[0] in ALPHANUMERIC
              && forall c <- role :: c in ALPHANUMERIC || c in LABEL_SIGNS
  {
    hide ALPHANUMERIC;
    forall c: char ensures LabelStart(c) <==> c in ALPHANUMERIC {
      AlphanumericMeaning(c);
    }
  }

  /** A scope `x:*` stands for every role that starts with `x:`. */
  predicate IsFamily(scope: string) {
    |scope| >= 2 && scope[|scope| - 2..] == ":*"
  }

  predicate ValidScope(scope: string) {
    ValidLabel(if IsFamily(scope) then scope[..|scope| - 2] else scope)
  }

  predicate ScopeMatches(scope: string, role: string) {
    if IsFamily(scope) then scope[..|scope| - 1] <= role else scope == role
  }

  /** Which roles a scope stands for: a family `x:*` for exactly those that continue `x:`, any
      other scope for the role of that name. */
  lemma {:induction false} ScopeMeaning(base: string, role: string)
    ensures ScopeMatches(base + ":*", role) <==> exists rest :: role == base + ":" + rest
    ensures !IsFamily(base) ==> (ScopeMatches(base, role) <==> base == role)
  {
    var scope := base + ":*";
    assert scope[|scope| - 2..] == ":*" && scope[..|scope| - 1] == base + ":";
    if base + ":" <= role { assert role == base + ":" + role[|base| + 1..]; }
  }

  // ----- sums over roles

  type Tally = map<string, real>

  function Get(m: Tally, role: string): real {
    if role in m then m[role] else 0.0
  }

  predicate NonNegative(m: Tally) {
    forall role <- m :: m[role] >= 0.0
  }

  ghost function Sum(m: Tally, roles: set<string>): real {
    if roles == {} then 0.0
    else
      var role :| role in roles;
      Get(m, role) + Sum(m, roles - {role})
  }

  ghost function Total(m: Tally): real {
    Sum(m, m.Keys)
  }

  /** The sum does not depend on which role is taken out first. */
  lemma {:induction false} SumPicks(m: Tally, roles: set<string>, role: string)
    requires role in roles
    ensures Sum(m, roles) == Get(m, role) + Sum(m, roles - {role})
    decreases |roles|
  {
    var first :| first in roles && Sum(m, roles) == Get(m, first) + Sum(m, roles - {first});
    if first != role {
      SumPicks(m, roles - {first}, role);
      SumPicks(m, roles - {role}, first);
      assert roles - {first} - {role} == roles - {role} - {first};
    }
  }

  lemma {:induction false} SumIsMonotone(m: Tally, n: Tally, roles: set<string>)
    requires forall role <- roles :: Get(m, role) <= Get(n, role)
    ensures Sum(m, roles) <= Sum(n, roles)
    decreases |roles|
  {
    if roles != {} {
      var role :| role in roles;
      SumPicks(m, roles, role);
      SumPicks(n, roles, role);
      SumIsMonotone(m, n, roles - {role});
    }
  }

  lemma {:induction false} SumOfMore(m: Tally, roles: set<string>, more: set<string>)
    requires NonNegative(m) && roles <= more
    ensures 0.0 <= Sum(m, roles) <= Sum(m, more)
    decreases |more|
  {
    if more != {} {
      var role :| role in more;
      SumPicks(m, more, role);
      if role in roles {
        SumPicks(m, roles, role);
        SumOfMore(m, roles - {role}, more - {role});
      } else {
        SumOfMore(m, roles, more - {role});
      }
    }
  }

  /** Adding to one role adds as much to the sum over all roles. */
  lemma {:induction false} SumAfterAdd(m: Tally, role: string, delta: real)
    ensures Total(m[role := Get(m, role) + delta]) == Total(m) + delta
  {
    var n := m[role := Get(m, role) + delta];
    SumPicks(n, n.Keys, role);
    var others := n.Keys - {role};
    SumIsMonotone(m, n, others);
    SumIsMonotone(n, m, others);
    if role in m {
      SumPicks(m, m.Keys, role);
      assert others == m.Keys - {role};
    } else {
      assert others == m.Keys;
    }
  }

  // ----- what a scope has consumed

  function Matching(m: Tally, scope: string): set<string> {
    set role <- m | ScopeMatches(scope, role)
  }

  ghost function ScopeConsumed(m: Tally, scope: string): real {
    if IsFamily(scope) then Sum(m, Matching(m, scope)) else Get(m, scope)
  }

  lemma {:induction false} ScopeWithinTotal(m: Tally, scope: string)
    requires NonNegative(m)
    ensures 0.0 <= ScopeConsumed(m, scope) <= Total(m)
  {
    SumOfMore(m, Matching(m, scope), m.Keys);
    if scope in m {
      SumPicks(m, m.Keys, scope);
      SumOfMore(m, m.Keys - {scope}, m.Keys);
    }
  }

  /** Every role has at least as much as before. */
  ghost predicate Grows(m: Tally, n: Tally) {
    m.Keys <= n.Keys && forall role <- n :: Get(m, role) <= Get(n, role)
  }

  lemma {:induction false} ScopeIsMonotone(m: Tally, n: Tally, scope: string)
    requires NonNegative(n) && Grows(m, n)
    ensures ScopeConsumed(m, scope) <= ScopeConsumed(n, scope)
  {
    if IsFamily(scope) {
      SumIsMonotone(m, n, Matching(m, scope));
      SumOfMore(n, Matching(m, scope), Matching(n, scope));
    } else {
      assert Get(m, scope) <= Get(n, scope) by { if scope in n {} }
    }
  }

  method ConsumedBy(consumed: Tally, scope: string) returns (total: real)
    ensures total == ScopeConsumed(consumed, scope)
  {
    if !IsFamily(scope) {
      return if scope in consumed then consumed[scope] else 0.0;
    }
    hide Sum, ScopeMatches;
    total := 0.0;
    var roles := consumed.Keys;
    assert roles * Matching(consumed, scope) == Matching(consumed, scope);
    while roles != {}
      invariant roles <= consumed.Keys
      invariant total + Sum(consumed, roles * Matching(consumed, scope)) == ScopeConsumed(consumed, scope)
      decreases |roles|
    {
      var role :| role in roles;
      ghost var left := roles * Matching(consumed, scope);
      assert (roles - {role}) * Matching(consumed, scope) == left - {role};
      if ScopeMatches(scope, role) {
        SumPicks(consumed, left, role);
        total := total + consumed[role];
      } else {
        assert left - {role} == left;
      }
      roles := roles - {role};
    }
    NothingSums(consumed);
    assert {} * Matching(consumed, scope) == {};
  }

  lemma NothingSums(m: Tally)
    ensures Sum(m, {}) == 0.0
  {
  }

  /** Some scope that concerns the role (any scope, without a role) has reached its limit. */
  ghost predicate RoleExhausted(limits: Tally, consumed: Tally, role: Option<string>) {
    exists scope <- limits ::
      (role.Some? ==> ScopeMatches(scope, role.value)) && ScopeConsumed(consumed, scope) >= limits[scope]
  }

  /** Every scope that concerns the role has consumed less than its limit. */
  ghost predicate RolesHaveRoom(limits: Tally, consumed: Tally, role: Option<string>) {
    forall scope <- limits :: role.None? || ScopeMatches(scope, role.value) ==>
      ScopeConsumed(consumed, scope) < limits[scope]
  }

  lemma {:induction false} RoomMeaning(limits: Tally, consumed: Tally, role: Option<string>)
    ensures !RoleExhausted(limits, consumed, role) <==> RolesHaveRoom(limits, consumed, role)
  {
    hide ScopeConsumed, ScopeMatches;
  }

  method RoleBudgetExhausted(limits: Tally, consumed: Tally, role: Option<string>) returns (exhausted: bool)
    ensures exhausted <==> RoleExhausted(limits, consumed, role)
  {
    var scopes := limits.Keys;
    while scopes != {}
      invariant scopes <= limits.Keys
      invariant forall scope <- limits.Keys - scopes ::
        (role.Some? ==> ScopeMatches(scope, role.value)) ==> ScopeConsumed(consumed, scope) < limits[scope]
      decreases |scopes|
    {
      var scope :| scope in scopes;
      if role.None? || ScopeMatches(scope, role.value) {
        var total := ConsumedBy(consumed, scope);
        if total >= limits[scope] {
          return true;
        }
      }
      scopes := scopes - {scope};
    }
    return false;
  }

  /** A role is only ever stopped by a scope that also stops the run as a whole. */
  lemma {:induction false} RoleExhaustedForAll(limits: Tally, consumed: Tally, role: Option<string>)
    requires RoleExhausted(limits, consumed, role)
    ensures RoleExhausted(limits, consumed, None)
  {
    hide ScopeConsumed;
  }

  lemma {:induction false} RoleExhaustedStays(limits: Tally, m: Tally, n: Tally, role: Option<string>)
    requires RoleExhausted(limits, m, role) && NonNegative(n) && Grows(m, n)
    ensures RoleExhausted(limits, n, role)
  {
    hide ScopeConsumed, ScopeMatches, Grows, NonNegative;
    var scope :| && scope in limits
                 && (role.Some? ==> ScopeMatches(scope, role.value))
                 && ScopeConsumed(m, scope) >= limits[scope];
    ScopeIsMonotone(m, n, scope);
  }

  // ----- meters

  /** A global counter with its per-role map. */
  datatype Meter = Meter(total: real, byRole: Tally) {
    ghost predicate Valid() {
      && total >= 0.0
      && (forall role <- byRole :: byRole[role] > 0.0 && ValidLabel(role))
      && Total(byRole) <= total
    }

    /** A recording: the role is only looked at for a positive amount, and an invalid one is
        refused after the global counter has been increased. */
    function Add(delta: real, role: Option<string>): (Meter, bool) {
      if role.None? || delta <= 0.0 then (Meter(total + delta, byRole), true)
      else if !ValidLabel(role.value) then (Meter(total + delta, byRole), false)
      else (Meter(total + delta, byRole[role.value := Get(byRole, role.value) + delta]), true)
    }

    ghost predicate Below(that: Meter) {
      total <= that.total && Grows(byRole, that.byRole)
    }
  }

  const EMPTY := Meter(0.0, map[])

  lemma EmptyIsValid()
    ensures EMPTY.Valid()
  {
  }

  /** Recording keeps the per-role amounts within the global one, and only adds. */
  lemma {:induction false} AddKeepsMeter(m: Meter, delta: real, role: Option<string>)
    requires m.Valid() && delta >= 0.0
    ensures m.Add(delta, role).0.Valid() && m.Below(m.Add(delta, role).0)
  {
    hide Total;
    if role.Some? && delta > 0.0 && ValidLabel(role.value) {
      SumAfterAdd(m.byRole, role.value, delta);
      RoleIsNonNegative(m, role.value);
    }
  }

  lemma RoleIsNonNegative(m: Meter, role: string)
    requires m.Valid()
    ensures Get(m.byRole, role) >= 0.0 && NonNegative(m.byRole)
  {
  }

  /** With every role limit at or above the global limit, a role is exhausted only when the
      global limit is reached as well. */
  lemma {:induction false} RoleLimitNeedsGlobal(m: Meter, limits: Tally, role: Option<string>, limit: real)
    requires m.Valid() && RoleExhausted(limits, m.byRole, role)
    requires forall scope <- limits :: limits[scope] >= limit
    ensures m.total >= limit
  {
    hide ScopeConsumed, ScopeMatches;
    var scope :| scope in limits && ScopeConsumed(m.byRole, scope) >= limits[scope];
    ScopeWithinTotal(m.byRole, scope);
  }
}

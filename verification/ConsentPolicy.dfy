/** The operator's invite filter (consent_policy.py) and the friction of a sender's tier
    (consent_tiering.py). */
module ConsentPolicy {
  import opened Text
  import BanFeeds

  datatype InviteDecision = Allow | Ignore | Block

  datatype Verbs = Verbs(allowed: set<string>, ignored: set<string>, blocked: set<string>)

  datatype InvitePolicy = InvitePolicy(enabled: bool, users: Verbs, servers: Verbs) {
    /** Users before servers, and within each the most permissive verb. */
    function Evaluate(sender: string): InviteDecision {
      if !enabled then Allow
      else if sender in users.allowed then Allow
      else if sender in users.ignored then Ignore
      else if sender in users.blocked then Block
      else
        var server := ServerOf(sender);
        if Matches(servers.allowed, server) then Allow
        else if Matches(servers.ignored, server) then Ignore
        else if Matches(servers.blocked, server) then Block
        else Allow
    }
  }

  /** The part after the first '@'; the whole text when there is none. */
  function ServerOf(fqid: string): string {
    var agent := Before(fqid, '@');
    if agent == fqid then fqid else fqid[|agent| + 1..]
  }

  predicate Matches(patterns: set<string>, server: string) {
    exists p :: p in patterns && BanFeeds.Glob(p, server)
  }

  predicate HasUserRule(policy: InvitePolicy, sender: string) {
    sender in policy.users.allowed || sender in policy.users.ignored || sender in policy.users.blocked
  }

  /** A rule for the sender itself decides alone, whatever the servers' rules. Without one, rules
      that name realms without wildcards decide exactly for the senders of those realms. */
  lemma RealmRulesIff(policy: InvitePolicy, agent: string, realm: string, other: Verbs)
    requires '@' !in agent
    requires forall p :: p in policy.servers.allowed + policy.servers.ignored + policy.servers.blocked ==> BanFeeds.Plain(p)
    ensures var sender := agent + "@" + realm;
            if HasUserRule(policy, sender) then policy.Evaluate(sender) == policy.(servers := other).Evaluate(sender)
            else
              && (policy.Evaluate(sender) == Ignore <==>
                  policy.enabled && realm in policy.servers.ignored && realm !in policy.servers.allowed)
              && (policy.Evaluate(sender) == Block <==>
                  policy.enabled && realm in policy.servers.blocked
                  && realm !in policy.servers.allowed && realm !in policy.servers.ignored)
  {
    var sender := agent + "@" + realm;
    BeforeConcat(agent, '@', realm);
    assert sender[|agent|] == '@' && sender[|agent| + 1..] == realm;
    PlainMatches(policy.servers.allowed, realm);
    PlainMatches(policy.servers.ignored, realm);
    PlainMatches(policy.servers.blocked, realm);
    assert ServerOf(sender) == realm;
  }

  /** Among the rules for a sender itself the most permissive one decides, and a policy that is off
      allows everyone. */
  lemma UserRulesIff(policy: InvitePolicy, sender: string)
    ensures !policy.enabled ==> policy.Evaluate(sender) == Allow
    ensures policy.enabled && HasUserRule(policy, sender) ==>
              && (policy.Evaluate(sender) == Allow <==> sender in policy.users.allowed)
              && (policy.Evaluate(sender) == Ignore <==>
                  sender in policy.users.ignored && sender !in policy.users.allowed)
              && (policy.Evaluate(sender) == Block <==>
                  sender in policy.users.blocked && sender !in policy.users.ignored && sender !in policy.users.allowed)
  {
    hide Matches, ServerOf;
  }

  lemma PlainMatches(patterns: set<string>, realm: string)
    requires forall p :: p in patterns ==> BanFeeds.Plain(p)
    ensures Matches(patterns, realm) <==> realm in patterns
  {
    forall p | p in patterns ensures BanFeeds.Glob(p, realm) <==> p == realm { BanFeeds.PlainGlob(p, realm); }
  }

  // ----- Tiers -----

  datatype Tier = Sovereign | Introduced | Anonymous

  datatype Friction = Friction(greylist: bool, rate_per_day: int, require_token: bool)

  /** A checked signature outranks an introduction. */
  function ClassifyTier(verified: bool, introduced: bool): Tier {
    if verified then Sovereign else if introduced then Introduced else Anonymous
  }

  function DefaultFriction(tier: Tier): Friction {
    match tier
    case Sovereign => Friction(false, 1000, false)
    case Introduced => Friction(false, 50, false)
    case Anonymous => Friction(true, 3, true)
  }

  function FrictionFor(tier: Tier, overrides: map<Tier, Friction>): Friction {
    if tier in overrides then overrides[tier] else DefaultFriction(tier)
  }
}

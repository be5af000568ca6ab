/** The three mutually derived maps of a selection and the stages that narrow them. */
module AdCandidates {
  import opened AdFilter

  /** What is left of the groups; a group with nothing left goes. */
  function Kept<T>(g: Groups<T>, keep: (Imp, T) -> bool): Groups<T> {
    map i | i in g && exists x :: x in g[i] && keep(i, x) :: set x | x in g[i] && keep(i, x)
  }

  function PoliciesOf(g: Groups<Creative>): set<Policy> {
    set i, c | i in g && c in g[i] :: c.policy
  }

  /** The policies of each impression that are among these. */
  function ImpPoliciesOf(g: Groups<Creative>, ps: set<Policy>): Groups<Policy> {
    map i | i in g && exists c :: c in g[i] && c.policy in ps :: set c | c in g[i] && c.policy in ps :: c.policy
  }

  function WithPolicyIn(ps: set<Policy>): (Imp, Creative) -> bool {
    (i, c: Creative) => c.policy in ps
  }

  /** One group done in a pass over a map whose other groups are still to come. */
  ghost predicate Partly<T>(g: Groups<T>, now: Groups<T>, todo: set<Imp>, keep: (Imp, T) -> bool) {
    && todo <= g.Keys && todo <= now.Keys <= g.Keys
    && (forall i :: i in todo ==> now[i] == g[i])
    && forall i :: i in g && i !in todo ==>
         && (i in now <==> exists x :: x in g[i] && keep(i, x))
         && (i in now ==> now[i] == set x | x in g[i] && keep(i, x))
  }

  lemma PartlyDone<T>(g: Groups<T>, now: Groups<T>, keep: (Imp, T) -> bool)
    requires Partly(g, now, {}, keep)
    ensures now == Kept(g, keep)
  {}

  /** Replacing a group by what is left of it, or erasing it. */
  function Settle<T>(now: Groups<T>, i: Imp, left: set<T>): Groups<T> {
    if left == {} then now - {i} else now[i := left]
  }

  lemma PartlyStep<T>(g: Groups<T>, now: Groups<T>, todo: set<Imp>, i: Imp, left: set<T>, keep: (Imp, T) -> bool)
    requires Partly(g, now, todo, keep) && i in todo && left == set x | x in g[i] && keep(i, x)
    ensures Partly(g, Settle(now, i, left), todo - {i}, keep)
  {
    assert left == {} <==> !exists x :: x in g[i] && keep(i, x) by {
      if x :| x in g[i] && keep(i, x) {
        assert x in left;
      }
      if x :| x in left {
        assert x in g[i] && keep(i, x);
      }
    }
  }

  class Candidates {
    var policies: set<Policy>
    var impPolicies: Groups<Policy>
    var impCreatives: Groups<Creative>
    var creativePrice: map<int, int>

    /** Candidates::clear */
    constructor ()
      ensures policies == {} && impPolicies == map[] && impCreatives == map[] && creativePrice == map[]
    {
      policies, impPolicies, impCreatives, creativePrice := {}, map[], map[], map[];
    }

    /** Every impression gets a group, even an empty one. */
    method FilterCreative(env: Env)
      requires impCreatives == map[]
      modifies this`impCreatives
      ensures impCreatives == map i | 0 <= i < env.impressions :: env.search(i)
    {
      for i := 0 to env.impressions
        invariant impCreatives == map j | 0 <= j < i :: env.search(j)
      {
        impCreatives := impCreatives[i := env.search(i)];
      }
    }

    method ImpCreative2Policies()
      modifies this`policies
      ensures policies == PoliciesOf(impCreatives)
    {
      policies := {};
      var todo := impCreatives.Keys;
      while todo != {}
        invariant todo <= impCreatives.Keys
        invariant policies == set i, c | i in impCreatives && i !in todo && c in impCreatives[i] :: c.policy
        decreases |todo|
      {
        var i :| i in todo;
        todo := todo - {i};
        var creatives := impCreatives[i];
        ghost var before := policies;
        while creatives != {}
          invariant creatives <= impCreatives[i]
          invariant policies == before + set c | c in impCreatives[i] && c !in creatives :: c.policy
          decreases |creatives|
        {
          var c :| c in creatives;
          creatives := creatives - {c};
          policies := policies + {c.policy};
        }
        assert policies == set j, c | j in impCreatives && j !in todo && c in impCreatives[j] :: c.policy;
      }
    }

    method FilterPolicies(env: Env)
      modifies this`policies
      ensures policies == set p | p in old(policies) && PolicyOpen(env, p)
    {
      var todo := policies;
      while todo != {}
        invariant todo <= policies <= old(policies)
        invariant forall p :: p in old(policies) && p !in todo ==> (p in policies <==> PolicyOpen(env, p))
        decreases |todo|
      {
        var p :| p in todo;
        todo := todo - {p};
        if p.campaignid in env.pausedCampaigns {
          policies := policies - {p};
        } else if p.id in env.pausedPolicies {
          policies := policies - {p};
        } else if env.policyFilter(p) != 0 {
          policies := policies - {p};
        } else if env.policyExt(p) != 0 {
          policies := policies - {p};
        }
      }
    }

    method PoliciesAmong(creatives: set<Creative>) returns (found: set<Policy>)
      ensures found == set c | c in creatives && c.policy in policies :: c.policy
      ensures found == {} <==> !exists c :: c in creatives && c.policy in policies
    {
      found := {};
      var next := creatives;
      while next != {}
        invariant next <= creatives
        invariant found == set c | c in creatives && c !in next && c.policy in policies :: c.policy
        decreases |next|
      {
        var c :| c in next;
        next := next - {c};
        if c.policy in policies {
          found := found + {c.policy};
        }
      }
      if c :| c in creatives && c.policy in policies {
        assert c.policy in found;
      }
    }

    method MakeImpPolicies()
      requires impPolicies == map[]
      modifies this`impPolicies
      ensures impPolicies == ImpPoliciesOf(impCreatives, policies)
    {
      var todo := impCreatives.Keys;
      ghost var goal := ImpPoliciesOf(impCreatives, policies);
      while todo != {}
        invariant todo <= impCreatives.Keys
        invariant impPolicies == map i | i in goal && i !in todo :: goal[i]
        decreases |todo|
      {
        var i :| i in todo;
        todo := todo - {i};
        var found := PoliciesAmong(impCreatives[i]);
        assert found == {} <==> i !in goal;
        impPolicies := Settle(impPolicies, i, found);
      }
    }

    method FilterPoliciesByImp(env: Env)
      modifies this`impPolicies
      ensures impPolicies == Kept(old(impPolicies), AcceptsImp(env))
    {
      var hasDeviceid := env.deviceids != [];
      ghost var keep := AcceptsImp(env);
      ghost var g := impPolicies;
      var todo := impPolicies.Keys;
      while todo != {}
        invariant Partly(g, impPolicies, todo, keep)
        decreases |todo|
      {
        var i :| i in todo;
        var ps := impPolicies[i];
        var next := ps;
        while next != {}
          invariant next <= ps <= g[i]
          invariant forall p :: p in g[i] && p !in next ==> (p in ps <==> keep(i, p))
          decreases |next|
        {
          var p :| p in next;
          next := next - {p};
          if env.policyImp(p, i) != 0 {
            ps := ps - {p};
          } else if !hasDeviceid && !env.allowNoDeviceid(p, i) {
            ps := ps - {p};
          }
        }
        PartlyStep(g, impPolicies, todo, i, ps, keep);
        impPolicies := Settle(impPolicies, i, ps);
        todo := todo - {i};
      }
      PartlyDone(g, impPolicies, keep);
    }

    /** Groups of impressions without policies go; the others may become empty. */
    method AdjustImpCreativesByImpPolicies()
      modifies this`impCreatives
      ensures impCreatives == map i | i in old(impCreatives) && i in impPolicies ::
                                set c | c in old(impCreatives)[i] && c.policy in impPolicies[i]
    {
      ghost var g := impCreatives;
      var todo := impCreatives.Keys;
      while todo != {}
        invariant todo <= impCreatives.Keys <= g.Keys
        invariant forall i :: i in todo ==> impCreatives[i] == g[i]
        invariant forall i :: i in g && i !in todo ==> (i in impCreatives <==> i in impPolicies)
        invariant forall i :: i in impCreatives && i !in todo ==>
                    impCreatives[i] == set c | c in g[i] && c.policy in impPolicies[i]
        decreases |todo|
      {
        var i :| i in todo;
        todo := todo - {i};
        if i !in impPolicies {
          impCreatives := impCreatives - {i};
        } else {
          var creatives := impCreatives[i];
          var next := creatives;
          while next != {}
            invariant next <= creatives <= g[i]
            invariant forall c :: c in g[i] && c !in next ==> (c in creatives <==> c.policy in impPolicies[i])
            decreases |next|
          {
            var c :| c in next;
            next := next - {c};
            if c.policy !in impPolicies[i] {
              creatives := creatives - {c};
            }
          }
          impCreatives := impCreatives[i := creatives];
        }
      }
    }

    method AdjustImpCreativesByPolicies()
      modifies this`impCreatives
      ensures impCreatives == Kept(old(impCreatives), WithPolicyIn(policies))
    {
      ghost var keep := WithPolicyIn(policies);
      ghost var g := impCreatives;
      var todo := impCreatives.Keys;
      while todo != {}
        invariant Partly(g, impCreatives, todo, keep)
        decreases |todo|
      {
        var i :| i in todo;
        var creatives := impCreatives[i];
        var next := creatives;
        while next != {}
          invariant next <= creatives <= g[i]
          invariant forall c :: c in g[i] && c !in next ==> (c in creatives <==> c.policy in policies)
          decreases |next|
        {
          var c :| c in next;
          next := next - {c};
          if c.policy !in policies {
            creatives := creatives - {c};
          }
        }
        PartlyStep(g, impCreatives, todo, i, creatives, keep);
        impCreatives := Settle(impCreatives, i, creatives);
        todo := todo - {i};
      }
      PartlyDone(g, impCreatives, keep);
    }

    /** Remembered by mapid alone. */
    method GetPrice(env: Env, i: Imp, c: Creative) returns (price: int)
      modifies this`creativePrice
      ensures price == Ask(env, old(creativePrice), i, c)
      ensures creativePrice == old(creativePrice)[c.mapid := price]
    {
      if c.mapid in creativePrice {
        return creativePrice[c.mapid];
      }
      price := env.price(c, i);
      creativePrice := creativePrice[c.mapid := price];
    }

    /** The inner loop of FilterCreativeByImp. */
    method FilterOneImp(env: Env, i: Imp, group: set<Creative>) returns (creatives: set<Creative>)
      requires Genuine(env, creativePrice) && i < env.impressions && group <= env.search(i)
      modifies this`creativePrice
      ensures Genuine(env, creativePrice) && Grows(old(creativePrice), creativePrice)
      ensures creatives == set c | c in group && CreativeOnImp(AsRemembered(env, creativePrice), i, c)
      ensures forall c :: c in group ==> Settled(env, creativePrice, i, c)
    {
      hide Genuine, CreativeOnImp, Settled;
      creatives := group;
      var next := group;
      while next != {}
        invariant next <= creatives <= group && Genuine(env, creativePrice) && Grows(old(creativePrice), creativePrice)
        invariant forall c :: c in group && c !in next ==>
                    Settled(env, creativePrice, i, c) &&
                    (c in creatives <==> CreativeOnImp(AsRemembered(env, creativePrice), i, c))
        decreases |next|
      {
        var c :| c in next;
        next := next - {c};
        ghost var before := creativePrice;
        if env.creativeImp(c, i) != 0 {
          creatives := creatives - {c};
        } else if env.creativeExt(c, i) != 0 {
          creatives := creatives - {c};
        } else {
          var price := GetPrice(env, i, c);
          AskedIsGenuine(env, before, i, c);
          if env.checkPrice(c, i, price) != 0 {
            creatives := creatives - {c};
          }
        }
        NowSettled(env, before, creativePrice, i, c);
        forall d | d in group && d !in next && d != c
          ensures Settled(env, creativePrice, i, d)
          ensures CreativeOnImp(AsRemembered(env, creativePrice), i, d) <==> CreativeOnImp(AsRemembered(env, before), i, d)
        {
          StaysSettled(env, before, creativePrice, i, d);
        }
      }
    }

    /** Judged by the prices as they are remembered in the end. */
    method FilterCreativeByImp(env: Env)
      requires Genuine(env, creativePrice) && Within(env, impCreatives)
      modifies this`impCreatives, this`creativePrice
      ensures Genuine(env, creativePrice)
      ensures impCreatives == Kept(old(impCreatives), FitsImp(AsRemembered(env, creativePrice)))
      ensures Priced(impCreatives, creativePrice)
    {
      hide Genuine, CreativeOnImp, Settled, Kept, Partly, AsRemembered, Grows;
      ghost var g := impCreatives;
      var todo := impCreatives.Keys;
      PartlyStart(g, FitsImp(AsRemembered(env, creativePrice)));
      while todo != {}
        invariant Genuine(env, creativePrice) && Partly(g, impCreatives, todo, FitsImp(AsRemembered(env, creativePrice)))
        invariant forall i, c :: i in g && i !in todo && c in g[i] ==> Settled(env, creativePrice, i, c)
        decreases |todo|
      {
        var i :| i in todo;
        ghost var before := creativePrice;
        PartlyAt(g, impCreatives, todo, i, FitsImp(AsRemembered(env, creativePrice)));
        var creatives := FilterOneImp(env, i, impCreatives[i]);
        SettledGroups(env, before, creativePrice, g, impCreatives, todo);
        PartlyStep(g, impCreatives, todo, i, creatives, FitsImp(AsRemembered(env, creativePrice)));
        impCreatives := Settle(impCreatives, i, creatives);
        todo := todo - {i};
      }
      PartlyDone(g, impCreatives, FitsImp(AsRemembered(env, creativePrice)));
      KeptPriced(env, creativePrice, g);
    }

    method FilterByAudience(env: Env)
      modifies this`policies
      ensures policies == set p | p in old(policies) && AudienceOk(env, p)
    {
      match env.device {
        case Unknown => return;
        case Known(blGlobal) =>
          if blGlobal {
            policies := {};
            return;
          }
      }
      var todo := policies;
      while todo != {}
        invariant todo <= policies <= old(policies)
        invariant forall p :: p in old(policies) && p !in todo ==> (p in policies <==> env.filterAudience(p) == 0)
        decreases |todo|
      {
        var p :| p in todo;
        todo := todo - {p};
        if env.filterAudience(p) != 0 {
          policies := policies - {p};
        }
      }
    }

    method FilterByFrequency(env: Env)
      modifies this`impCreatives
      ensures impCreatives == Kept(old(impCreatives), WithinCaps(env))
    {
      hide Settle, Kept, UnderCaps, Caps.Valid;
      var caps := new Caps();
      ghost var keep := WithinCaps(env);
      ghost var g := impCreatives;
      var todo := impCreatives.Keys;
      while todo != {}
        invariant Partly(g, impCreatives, todo, keep)
        invariant fresh(caps.Repr()) && caps.Valid(env)
        decreases |todo|
      {
        var i :| i in todo;
        var creatives := caps.FilterGroup(env, impCreatives[i]);
        PartlyStep(g, impCreatives, todo, i, creatives, keep);
        impCreatives := Settle(impCreatives, i, creatives);
        todo := todo - {i};
      }
      PartlyDone(g, impCreatives, keep);
    }
  }

  /** The three frequency filters of one request. */
  class Caps {
    const campaign: FrequencyFilter
    const policy: FrequencyFilter
    const creative: FrequencyFilter

    ghost function Repr(): set<object> {
      {campaign, policy, creative}
    }

    ghost predicate Valid(env: Env)
      reads Repr()
    {
      && campaign != policy && policy != creative && creative != campaign
      && campaign.Valid(env.fullCampaign, env.deviceids) && policy.Valid(env.fullPolicy, env.deviceids)
      && creative.Valid(env.fullCreative, env.deviceids)
    }

    constructor ()
      ensures forall env: Env :: Valid(env)
      ensures fresh(Repr())
    {
      campaign := new FrequencyFilter();
      policy := new FrequencyFilter();
      creative := new FrequencyFilter();
    }

    /** The three checks in order, each made only when the one before passed. */
    method Check(env: Env, c: Creative) returns (ok: bool)
      requires Valid(env)
      modifies Repr()
      ensures Valid(env) && ok == UnderCaps(env, c)
    {
      hide Full;
      ok := campaign.Check(c.policy.campaignid, env.deviceids, env.fullCampaign);
      if !ok {
        return;
      }
      ok := policy.Check(c.policyid, env.deviceids, env.fullPolicy);
      if !ok {
        return;
      }
      ok := creative.Check(c.creativeid, env.deviceids, env.fullCreative);
    }

    /** The inner loop of FilterByFrequency. */
    method FilterGroup(env: Env, group: set<Creative>) returns (creatives: set<Creative>)
      requires Valid(env)
      modifies Repr()
      ensures Valid(env) && creatives == set c | c in group && UnderCaps(env, c)
    {
      creatives := group;
      var next := group;
      while next != {}
        invariant next <= creatives <= group && Valid(env)
        invariant forall c :: c in group && c !in next ==> (c in creatives <==> UnderCaps(env, c))
        decreases |next|
      {
        var c :| c in next;
        next := next - {c};
        var ok := Check(env, c);
        if !ok {
          creatives := creatives - {c};
        }
      }
    }
  }

  /** A mapid has one price. */
  predicate ConsistentPrices(env: Env) {
    forall i: Imp, j: Imp, c, d ::
      i < env.impressions && j < env.impressions && c in env.search(i) && d in env.search(j) && c.mapid == d.mapid ==>
        env.price(c, i) == env.price(d, j)
  }

  // ---- prices remembered by mapid ----

  /** What GetPrice answers. */
  function Ask(env: Env, m: map<int, int>, i: Imp, c: Creative): int {
    if c.mapid in m then m[c.mapid] else env.price(c, i)
  }

  /** The request as it looks through the remembered prices. */
  function AsRemembered(env: Env, m: map<int, int>): Env {
    env.(price := (c: Creative, i: Imp) => Ask(env, m, i, c))
  }

  /** Every remembered price is that of some candidate with this mapid. */
  ghost predicate Genuine(env: Env, m: map<int, int>) {
    forall k :: k in m ==> exists i: Imp, c :: i < env.impressions && c in env.search(i) && c.mapid == k && m[k] == env.price(c, i)
  }

  predicate Grows(m: map<int, int>, m': map<int, int>) {
    m.Keys <= m'.Keys && forall k :: k in m ==> m'[k] == m[k]
  }

  /** Its place among the remembered prices no longer matters, or is taken. */
  predicate Settled(env: Env, m: map<int, int>, i: Imp, c: Creative) {
    env.creativeImp(c, i) != 0 || env.creativeExt(c, i) != 0 || c.mapid in m
  }

  lemma AskedIsGenuine(env: Env, m: map<int, int>, i: Imp, c: Creative)
    requires Genuine(env, m) && i < env.impressions && c in env.search(i)
    ensures Genuine(env, m[c.mapid := Ask(env, m, i, c)])
  {}

  lemma NowSettled(env: Env, m: map<int, int>, m': map<int, int>, i: Imp, c: Creative)
    requires if env.creativeImp(c, i) != 0 || env.creativeExt(c, i) != 0 then m' == m else m' == m[c.mapid := Ask(env, m, i, c)]
    ensures Grows(m, m') && Settled(env, m', i, c)
    ensures CreativeOnImp(AsRemembered(env, m'), i, c) <==>
            env.creativeImp(c, i) == 0 && env.creativeExt(c, i) == 0 && env.checkPrice(c, i, Ask(env, m, i, c)) == 0
  {}

  lemma StaysSettled(env: Env, m: map<int, int>, m': map<int, int>, i: Imp, c: Creative)
    requires Settled(env, m, i, c) && Grows(m, m')
    ensures Settled(env, m', i, c)
    ensures CreativeOnImp(AsRemembered(env, m'), i, c) <==> CreativeOnImp(AsRemembered(env, m), i, c)
  {}

  lemma PartlyStart<T>(g: Groups<T>, keep: (Imp, T) -> bool)
    ensures Partly(g, g, g.Keys, keep)
  {}

  lemma PartlyAt<T>(g: Groups<T>, now: Groups<T>, todo: set<Imp>, i: Imp, keep: (Imp, T) -> bool)
    requires Partly(g, now, todo, keep) && i in todo
    ensures i in g && i in now && now[i] == g[i]
  {}

  /** More prices do not change what has been decided. */
  lemma SettledGroups(env: Env, m: map<int, int>, m': map<int, int>, g: Groups<Creative>, now: Groups<Creative>, todo: set<Imp>)
    requires Partly(g, now, todo, FitsImp(AsRemembered(env, m))) && Grows(m, m')
    requires forall i, c :: i in g && i !in todo && c in g[i] ==> Settled(env, m, i, c)
    ensures Partly(g, now, todo, FitsImp(AsRemembered(env, m')))
    ensures forall i, c :: i in g && i !in todo && c in g[i] ==> Settled(env, m', i, c)
  {
    hide Partly, Settled, CreativeOnImp, AsRemembered, Grows;
    var keep, keep' := FitsImp(AsRemembered(env, m)), FitsImp(AsRemembered(env, m'));
    forall i, c | i in g && i !in todo && c in g[i] ensures Settled(env, m', i, c) && keep(i, c) == keep'(i, c) {
      StaysSettled(env, m, m', i, c);
    }
    SamePartly(g, now, todo, keep, keep');
  }

  lemma SamePartly<T>(g: Groups<T>, now: Groups<T>, todo: set<Imp>, keep: (Imp, T) -> bool, keep': (Imp, T) -> bool)
    requires Partly(g, now, todo, keep)
    requires forall i, x :: i in g && i !in todo && x in g[i] ==> keep(i, x) == keep'(i, x)
    ensures Partly(g, now, todo, keep')
  {}

  lemma KeptPriced(env: Env, m: map<int, int>, g: Groups<Creative>)
    requires forall i, c :: i in g && c in g[i] ==> Settled(env, m, i, c)
    ensures Priced(Kept(g, FitsImp(AsRemembered(env, m))), m)
  {}

  // ---- when remembering by mapid is right ----

  function Remembered(env: Env, m: map<int, int>, calls: seq<(Imp, Creative)>): map<int, int>
    decreases |calls|
  {
    if calls == [] then m
    else Remembered(env, m[calls[0].1.mapid := Ask(env, m, calls[0].0, calls[0].1)], calls[1..])
  }

  predicate AllFound(env: Env, calls: seq<(Imp, Creative)>) {
    forall k :: 0 <= k < |calls| ==> calls[k].0 < env.impressions && calls[k].1 in env.search(calls[k].0)
  }

  lemma {:induction false} CallsGenuine(env: Env, m: map<int, int>, calls: seq<(Imp, Creative)>)
    requires Genuine(env, m) && AllFound(env, calls)
    ensures Genuine(env, Remembered(env, m, calls))
    decreases |calls|
  {
    hide Genuine;
    if calls != [] {
      assert calls[0].0 < env.impressions;
      AskedIsGenuine(env, m, calls[0].0, calls[0].1);
      CallsGenuine(env, m[calls[0].1.mapid := Ask(env, m, calls[0].0, calls[0].1)], calls[1..]);
    }
  }

  lemma GenuineIsRight(env: Env, m: map<int, int>, i: Imp, c: Creative)
    requires ConsistentPrices(env) && Genuine(env, m) && i < env.impressions && c in env.search(i)
    ensures Ask(env, m, i, c) == env.price(c, i)
  {}

  /** The answers after any calls are the right ones if and only if a mapid has one price. */
  lemma PricesExactly(env: Env)
    ensures ConsistentPrices(env) <==>
            forall calls, i: Imp, c :: AllFound(env, calls) && i < env.impressions && c in env.search(i) ==>
              Ask(env, Remembered(env, map[], calls), i, c) == env.price(c, i)
  {
    if ConsistentPrices(env) {
      forall calls, i: Imp, c | AllFound(env, calls) && i < env.impressions && c in env.search(i)
        ensures Ask(env, Remembered(env, map[], calls), i, c) == env.price(c, i)
      {
        CallsGenuine(env, map[], calls);
        GenuineIsRight(env, Remembered(env, map[], calls), i, c);
      }
    } else {
      var i: Imp, j: Imp, c, d :| i < env.impressions && j < env.impressions && c in env.search(i) && d in env.search(j) &&
                                  c.mapid == d.mapid && env.price(c, i) != env.price(d, j);
      var calls := [(j, d)];
      assert AllFound(env, calls) && calls[1..] == [];
      assert Remembered(env, map[], calls) == map[d.mapid := env.price(d, j)];
    }
  }

  /** Every group holds candidates found for its impression. */
  predicate Within(env: Env, g: Groups<Creative>) {
    forall i :: i in g ==> i < env.impressions && g[i] <= env.search(i)
  }

  predicate Priced(g: Groups<Creative>, prices: map<int, int>) {
    forall i, c :: i in g && c in g[i] ==> c.mapid in prices
  }

  function AcceptsImp(env: Env): (Imp, Policy) -> bool {
    (i: Imp, p: Policy) => PolicyOnImp(env, i, p)
  }

  function FitsImp(env: Env): (Imp, Creative) -> bool {
    (i: Imp, c: Creative) => CreativeOnImp(env, i, c)
  }

  function WithinCaps(env: Env): (Imp, Creative) -> bool {
    (i: Imp, c: Creative) => UnderCaps(env, c)
  }
}

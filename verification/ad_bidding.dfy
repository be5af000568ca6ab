/** The choice of one creative per impression, and the whole of SelectAd. */
module AdBidding {
  import opened AdFilter
  import opened AdCandidates

  /** Those that support a deep link, when the request does and they are some but not all. */
  function Preferred(env: Env, s: set<Creative>): (r: set<Creative>)
    ensures r <= s && (s != {} ==> r != {})
  {
    var supports := set c | c in s && c.hasDeeplink;
    if !env.supportDeeplink || |s| == 1 || supports == {} || supports == s then s else supports
  }

  /** A single candidate whatever its price; otherwise those of the highest price, if that is positive. */
  function Priciest(env: Env, i: Imp, s: set<Creative>): (r: set<Creative>)
    ensures r <= s
  {
    if |s| == 1 then s
    else set c | c in s && env.price(c, i) > 0 && forall d :: d in s ==> env.price(d, i) <= env.price(c, i)
  }

  /** The trades of these creatives that the user has not clicked on. */
  function Unclicked(env: Env, s: set<Creative>): set<int> {
    (set c | c in s :: c.policy.advcat) - env.clicked
  }

  /** No larger trade of these has any relevancy. */
  predicate LastRelevant(env: Env, trades: set<int>, a: int) {
    forall b :: b in trades && b > a ==> env.relevancy(b) <= 0.0
  }

  function ByTrade(env: Env, s: set<Creative>): (r: set<Creative>)
    ensures r <= s
  {
    var unseen := Unclicked(env, s);
    if |s| == 1 || |set c | c in s :: c.policy.advcat| == 1 || unseen == {} then s
    else set c | c in s && c.policy.advcat in unseen && LastRelevant(env, unseen, c.policy.advcat)
  }

  /** What SelectByLast draws from. */
  function Finalists(env: Env, i: Imp, s: set<Creative>): set<Creative> {
    ByTrade(env, Priciest(env, i, Preferred(env, s)))
  }

  lemma Pick<T>(s: set<T>) returns (x: T)
    requires s != {}
    ensures x in s
  {
    x :| x in s;
  }

  lemma {:induction false} LargestOf(s: set<int>) returns (m: int)
    requires s != {}
    ensures m in s && forall b :: b in s ==> b <= m
    decreases |s|
  {
    var x := Pick(s);
    var rest := s - {x};
    m := x;
    if rest != {} {
      var k := LargestOf(rest);
      m := if k > x then k else x;
    }
    assert forall b :: b in s ==> b == x || b in rest;
  }

  lemma {:induction false} SmallestOf(s: set<int>) returns (m: int)
    requires s != {}
    ensures m in s && forall b :: b in s ==> m <= b
    decreases |s|
  {
    var x := Pick(s);
    var rest := s - {x};
    m := x;
    if rest != {} {
      var k := SmallestOf(rest);
      m := if k < x then k else x;
    }
    assert forall b :: b in s ==> b == x || b in rest;
  }

  /** The choice by trade never empties a group. */
  lemma ByTradeNonempty(env: Env, s: set<Creative>)
    requires s != {}
    ensures ByTrade(env, s) != {}
  {
    var unseen := Unclicked(env, s);
    if unseen != {} {
      var m := LargestOf(unseen);
      var c :| c in s && c.policy.advcat == m;
      assert LastRelevant(env, unseen, m);
      assert ByTrade(env, s) != s ==> c in ByTrade(env, s);
    }
  }

  /** A group loses all its candidates exactly when there are several and none has a positive price. */
  lemma {:induction false} PriciestEmpty(env: Env, i: Imp, s: set<Creative>)
    requires s != {}
    ensures Priciest(env, i, s) == {} <==> |s| != 1 && forall c :: c in s ==> env.price(c, i) <= 0
  {
    if |s| != 1 {
      var m := PriciestOne(env, i, s);
      if env.price(m, i) > 0 {
        assert m in Priciest(env, i, s);
      }
    }
  }

  lemma {:induction false} PriciestOne(env: Env, i: Imp, s: set<Creative>) returns (m: Creative)
    requires s != {}
    ensures m in s && forall d :: d in s ==> env.price(d, i) <= env.price(m, i)
    decreases |s|
  {
    m :| m in s;
    if s - {m} != {} {
      var k := PriciestOne(env, i, s - {m});
      if env.price(k, i) > env.price(m, i) {
        m := k;
      }
    }
  }

  predicate MostRelevant(env: Env, trades: set<int>, a: int) {
    a in trades && forall b :: b in trades ==> env.relevancy(b) <= env.relevancy(a)
  }

  /** The choice by trade is the choice of the most relevant trades just when no trade is relevant,
      or the last of them is more relevant than all others. */
  lemma TradeIsMaximal(env: Env, trades: set<int>)
    requires trades != {} && forall a :: a in trades ==> env.relevancy(a) >= 0.0
    ensures (forall a :: a in trades ==> (LastRelevant(env, trades, a) <==> MostRelevant(env, trades, a))) <==>
            || (forall a :: a in trades ==> env.relevancy(a) == 0.0)
            || exists m :: m in trades && (forall b :: b in trades ==> b <= m) &&
                           forall b :: b in trades && b != m ==> env.relevancy(b) < env.relevancy(m)
  {
    var m := LargestOf(trades);
    assert LastRelevant(env, trades, m);
    if forall a :: a in trades ==> (LastRelevant(env, trades, a) <==> MostRelevant(env, trades, a)) {
      assert MostRelevant(env, trades, m);
      if a :| a in trades && env.relevancy(a) != 0.0 {
        forall b | b in trades && b != m ensures env.relevancy(b) < env.relevancy(m) {
          assert !LastRelevant(env, trades, b);
          assert !MostRelevant(env, trades, b);
        }
      }
    }
  }

  // ---- the stages, as methods ----

  method SelectByDeeplink(env: Env, creatives: set<Creative>) returns (r: set<Creative>)
    ensures r == Preferred(env, creatives)
  {
    if !env.supportDeeplink || |creatives| == 1 {
      return creatives;
    }
    var supports: set<Creative> := {};
    var todo := creatives;
    while todo != {}
      invariant todo <= creatives && supports == set c | c in creatives && c !in todo && c.hasDeeplink
      decreases |todo|
    {
      var c :| c in todo;
      todo := todo - {c};
      if c.hasDeeplink {
        supports := supports + {c};
      }
    }
    if |supports| == 0 || |supports| == |creatives| {
      SameSize(supports, creatives);
      return creatives;
    }
    return supports;
  }

  lemma {:induction false} SameSize<T>(a: set<T>, b: set<T>)
    requires a <= b
    ensures |a| == |b| <==> a == b
    ensures |a| == 0 <==> a == {}
  {
    if a != b {
      assert b == a + (b - a);
    }
  }

  method SelectByPrice(env: Env, i: Imp, all: set<Creative>, prices: map<int, int>) returns (creatives: set<Creative>)
    requires forall c :: c in all ==> c.mapid in prices && prices[c.mapid] == env.price(c, i)
    ensures creatives == Priciest(env, i, all)
  {
    if |all| == 1 {
      return all;
    }
    var price := 0;
    creatives := {};
    var todo := all;
    while todo != {}
      invariant todo <= all && price >= 0
      invariant forall c :: c in all && c !in todo ==> env.price(c, i) <= price
      invariant creatives == set c | c in all && c !in todo && env.price(c, i) > 0 && env.price(c, i) == price
      invariant price > 0 ==> creatives != {}
      decreases |todo|
    {
      var c :| c in todo;
      todo := todo - {c};
      var tmp := prices[c.mapid];
      if tmp == 0 || tmp < price {
      } else if tmp == price {
        creatives := creatives + {c};
      } else {
        price := tmp;
        creatives := {c};
      }
    }
  }

  /** Those that no larger trade of these has any relevancy beside. */
  function Lasting(env: Env, trades: set<int>): set<int> {
    set a | a in trades && LastRelevant(env, trades, a)
  }

  /** One more trade, larger than all before it. */
  lemma LastingMore(env: Env, before: set<int>, a: int)
    requires a !in before && forall b :: b in before ==> b < a
    ensures Lasting(env, before + {a}) == if env.relevancy(a) > 0.0 then {a} else Lasting(env, before) + {a}
  {
    assert LastRelevant(env, before + {a}, a);
    forall b | b in before
      ensures LastRelevant(env, before + {a}, b) <==> LastRelevant(env, before, b) && env.relevancy(a) <= 0.0
    {
    }
  }

  /** The running maximum of the source is never updated. */
  method SelectTrades(env: Env, trades: set<int>) returns (selected: set<int>)
    requires forall a :: env.relevancy(a) >= 0.0
    ensures selected == Lasting(env, trades - env.clicked)
  {
    hide Lasting;
    var maxRelevancy := 0.0;
    var todo := trades;
    selected := {};
    NoTrades(env);
    assert (trades - todo) - env.clicked == {};
    while todo != {}
      invariant todo <= trades
      invariant forall a, b :: a in trades && a !in todo && b in todo ==> a < b
      invariant selected == Lasting(env, (trades - todo) - env.clicked)
      decreases |todo|
    {
      ghost var smallest := SmallestOf(todo);
      var a :| a in todo && forall b :: b in todo ==> a <= b;
      ghost var before := (trades - todo) - env.clicked;
      todo := todo - {a};
      if a in env.clicked {
        assert (trades - todo) - env.clicked == before;
        continue;
      }
      assert (trades - todo) - env.clicked == before + {a};
      LastingMore(env, before, a);
      var relevancy := env.relevancy(a);
      if relevancy > maxRelevancy {
        selected := {a};
      } else if relevancy == maxRelevancy {
        selected := selected + {a};
      }
    }
    assert trades - {} == trades;
  }

  lemma NoTrades(env: Env)
    ensures Lasting(env, {}) == {}
  {}

  lemma SomeSelected(env: Env, trades: set<int>, selected: set<int>)
    requires selected == set a | a in trades - env.clicked && LastRelevant(env, trades - env.clicked, a)
    ensures selected == {} <==> trades - env.clicked == {}
  {
    if trades - env.clicked != {} {
      var m := LargestOf(trades - env.clicked);
      assert LastRelevant(env, trades - env.clicked, m);
      assert m in selected;
    }
  }

  method OfTrades(creatives: set<Creative>, selected: set<int>) returns (r: set<Creative>)
    ensures r == set c | c in creatives && c.policy.advcat in selected
  {
    r := {};
    var todo := creatives;
    while todo != {}
      invariant todo <= creatives && r == set c | c in creatives && c !in todo && c.policy.advcat in selected
      decreases |todo|
    {
      var c :| c in todo;
      todo := todo - {c};
      if c.policy.advcat in selected {
        r := r + {c};
      }
    }
  }

  method SelectByAdvcat(env: Env, creatives: set<Creative>) returns (r: set<Creative>)
    requires forall a :: env.relevancy(a) >= 0.0
    ensures r == ByTrade(env, creatives)
  {
    if |creatives| == 1 {
      return creatives;
    }
    var trades: set<int> := {};
    var todo := creatives;
    while todo != {}
      invariant todo <= creatives && trades == set c | c in creatives && c !in todo :: c.policy.advcat
      decreases |todo|
    {
      var c :| c in todo;
      todo := todo - {c};
      trades := trades + {c.policy.advcat};
    }
    assert trades == set c | c in creatives :: c.policy.advcat;
    if |trades| == 1 {
      return creatives;
    }
    var selected := SelectTrades(env, trades);
    SomeSelected(env, trades, selected);
    if selected == {} {
      return creatives;
    }
    r := OfTrades(creatives, selected);
  }

  /** A random index into a vector of no elements divides by zero. */
  datatype Drawn = One(creative: Creative) | DivisionByZero

  method SelectByLast(creatives: set<Creative>) returns (r: Drawn)
    ensures creatives == {} <==> r.DivisionByZero?
    ensures creatives != {} ==> r.creative in creatives
  {
    if creatives == {} {
      return DivisionByZero;
    }
    var c :| c in creatives;
    r := One(c);
  }

  /** Whether the choice for this group runs into the division. */
  predicate Stuck(env: Env, i: Imp, s: set<Creative>) {
    Finalists(env, i, s) == {}
  }

  lemma StuckExactly(env: Env, i: Imp, s: set<Creative>)
    requires s != {}
    ensures Stuck(env, i, s) <==>
            |Preferred(env, s)| != 1 && forall c :: c in Preferred(env, s) ==> env.price(c, i) <= 0
  {
    PriciestEmpty(env, i, Preferred(env, s));
    if Priciest(env, i, Preferred(env, s)) != {} {
      ByTradeNonempty(env, Priciest(env, i, Preferred(env, s)));
    }
  }

  /** Among several preferred candidates only those of the highest price, a positive one, can win. */
  lemma WinnerIsPriciest(env: Env, i: Imp, s: set<Creative>, c: Creative)
    requires c in Finalists(env, i, s)
    ensures c in Preferred(env, s)
    ensures |Preferred(env, s)| != 1 ==>
              env.price(c, i) > 0 && forall d :: d in Preferred(env, s) ==> env.price(d, i) <= env.price(c, i)
  {}

  /** Two candidates without a price, which a floor of zero lets through. */
  lemma ZeroPricesStick(env: Env, i: Imp, c: Creative, d: Creative)
    requires c != d && c.hasDeeplink == d.hasDeeplink && env.price(c, i) == env.price(d, i) == 0
    ensures Stuck(env, i, {c, d})
  {
    var s := {c, d};
    assert |s| == 2;
    assert Preferred(env, s) == s by {
      assert c.hasDeeplink ==> (set x | x in s && x.hasDeeplink) == s;
      assert !c.hasDeeplink ==> (set x | x in s && x.hasDeeplink) == {};
    }
    StuckExactly(env, i, s);
  }

  // ---- who can win, from the request and the group alone ----

  /** None of several competitors is dearer, and they have a price at all. */
  predicate Dearest(env: Env, i: Imp, pool: set<Creative>, c: Creative) {
    c in pool && (|pool| > 1 ==> env.price(c, i) > 0 && forall d :: d in pool ==> env.price(d, i) <= env.price(c, i))
  }

  /** Among competitors of one price: unless they are of one trade, or the user has clicked on all their trades,
      this trade is not clicked on and no larger one that is not has any relevancy. */
  predicate TradeAllows(env: Env, rivals: set<Creative>, c: Creative) {
    (exists d :: d in rivals && d.policy.advcat != c.policy.advcat) &&
    (exists d :: d in rivals && d.policy.advcat !in env.clicked) ==>
      && c.policy.advcat !in env.clicked
      && forall d :: d in rivals && d.policy.advcat > c.policy.advcat && d.policy.advcat !in env.clicked ==>
           env.relevancy(d.policy.advcat) <= 0.0
  }

  /** Those with a deep link compete, if the request supports it and there are any, otherwise all. */
  predicate CanWin(env: Env, i: Imp, s: set<Creative>, c: Creative) {
    var linked := set d | d in s && d.hasDeeplink;
    var pool := if env.supportDeeplink && linked != {} then linked else s;
    Dearest(env, i, pool, c) && TradeAllows(env, (set d | d in pool && Dearest(env, i, pool, d)), c)
  }

  lemma PreferredIsPool(env: Env, s: set<Creative>)
    ensures var linked := set d | d in s && d.hasDeeplink;
            Preferred(env, s) == if env.supportDeeplink && linked != {} then linked else s
  {
    var linked := set d | d in s && d.hasDeeplink;
    assert linked == set c | c in s && c.hasDeeplink;
    if |s| == 1 && linked != {} {
      var c :| c in linked;
      SameSize({c}, s);
      assert linked == s;
    }
  }

  lemma PriciestAreDearest(env: Env, i: Imp, pool: set<Creative>)
    ensures Priciest(env, i, pool) == set c | c in pool && Dearest(env, i, pool, c)
  {
    if pool != {} && |pool| != 1 {
      assert |pool| > 1;
    }
  }

  lemma ByTradeAllows(env: Env, rivals: set<Creative>, c: Creative)
    ensures c in ByTrade(env, rivals) <==> c in rivals && TradeAllows(env, rivals, c)
  {
    var trades := set d | d in rivals :: d.policy.advcat;
    var unseen := Unclicked(env, rivals);
    if c in rivals {
      var a := c.policy.advcat;
      assert a in trades;
      assert |trades| == 1 <==> trades == {a} by { SameSize({a}, trades); }
      assert forall d :: d in rivals ==> d.policy.advcat in trades;
      assert (exists d :: d in rivals && d.policy.advcat != a) ==> trades != {a};
      assert unseen == {} <==> !exists d :: d in rivals && d.policy.advcat !in env.clicked by {
        assert forall d :: d in rivals && d.policy.advcat !in env.clicked ==> d.policy.advcat in unseen;
      }
      if |rivals| == 1 {
        OneTrade(rivals, c);
      }
      TradesLarger(env, rivals, a);
    }
  }

  lemma OneTrade(rivals: set<Creative>, c: Creative)
    requires c in rivals && |rivals| == 1
    ensures forall d :: d in rivals ==> d == c
  {
    SameSize({c}, rivals);
  }

  lemma TradesLarger(env: Env, rivals: set<Creative>, a: int)
    ensures LastRelevant(env, Unclicked(env, rivals), a) <==>
            forall d :: d in rivals && d.policy.advcat > a && d.policy.advcat !in env.clicked ==>
              env.relevancy(d.policy.advcat) <= 0.0
  {
    var unseen := Unclicked(env, rivals);
    forall d | d in rivals && d.policy.advcat !in env.clicked ensures d.policy.advcat in unseen {}
  }

  /** The finalists are exactly the candidates that can win. */
  lemma FinalistsCanWin(env: Env, i: Imp, s: set<Creative>, c: Creative)
    ensures c in Finalists(env, i, s) <==> CanWin(env, i, s, c)
  {
    var pool := Preferred(env, s);
    PreferredIsPool(env, s);
    PriciestAreDearest(env, i, pool);
    ByTradeAllows(env, Priciest(env, i, pool), c);
    var rivals := set d | d in pool && Dearest(env, i, pool, d);
    assert c in rivals <==> Dearest(env, i, pool, c);
    hide Preferred, Priciest, ByTrade, Dearest, TradeAllows;
  }

  /** One winner per impression. */
  ghost predicate Winners(env: Env, g: Groups<Creative>, won: Groups<Creative>) {
    && won.Keys == g.Keys
    && forall i :: i in g ==> exists c :: c in Finalists(env, i, g[i]) && won[i] == {c}
  }

  method SelectOne(env: Env, i: Imp, s: set<Creative>, prices: map<int, int>) returns (r: Drawn)
    requires forall a :: env.relevancy(a) >= 0.0
    requires forall c :: c in s ==> c.mapid in prices && prices[c.mapid] == env.price(c, i)
    ensures r.DivisionByZero? <==> Stuck(env, i, s)
    ensures r.One? ==> r.creative in Finalists(env, i, s) && CanWin(env, i, s, r.creative)
  {
    hide Preferred, Priciest, ByTrade, CanWin;
    var t := SelectByDeeplink(env, s);
    t := SelectByPrice(env, i, t, prices);
    t := SelectByAdvcat(env, t);
    r := SelectByLast(t);
    if r.One? {
      FinalistsCanWin(env, i, s, r.creative);
    }
  }

  /** FilterByCreativeBidding; false stands for the division by zero. */
  method FilterByCreativeBidding(env: Env, g: Groups<Creative>, prices: map<int, int>)
    returns (ok: bool, won: Groups<Creative>)
    requires forall a :: env.relevancy(a) >= 0.0
    requires forall i, c :: i in g && c in g[i] ==> c.mapid in prices && prices[c.mapid] == env.price(c, i)
    ensures ok <==> forall i :: i in g ==> !Stuck(env, i, g[i])
    ensures ok ==> Winners(env, g, won)
  {
    hide Finalists, Stuck;
    won := g;
    var todo := g.Keys;
    while todo != {}
      invariant todo <= g.Keys == won.Keys
      invariant forall i :: i in todo ==> won[i] == g[i]
      invariant forall i :: i in g && i !in todo ==>
                  !Stuck(env, i, g[i]) && exists c :: c in Finalists(env, i, g[i]) && won[i] == {c}
      decreases |todo|
    {
      var i :| i in todo;
      todo := todo - {i};
      var r := SelectOne(env, i, won[i], prices);
      if r.DivisionByZero? {
        return false, won;
      }
      won := won[i := {r.creative}];
    }
    ok := true;
  }

  // ---- SelectAd ----

  datatype Ending = NoBid | Bid | Crash

  predicate Has<T>(g: Groups<T>, i: Imp, x: T) {
    i in g && x in g[i]
  }

  predicate Tight<T>(g: Groups<T>) {
    forall i :: i in g ==> g[i] != {}
  }

  lemma SameGroups<T>(g: Groups<T>, h: Groups<T>)
    requires Tight(g) && Tight(h) && forall i, x :: Has(g, i, x) <==> Has(h, i, x)
    ensures g == h
  {
    forall i | i in g ensures i in h && g[i] == h[i] {
      var x :| x in g[i];
      assert Has(g, i, x);
      assert Has(h, i, x);
      forall y ensures y in g[i] <==> y in h[i] {
        assert Has(g, i, y) <==> Has(h, i, y);
      }
    }
    forall i | i in h ensures i in g {
      var x :| x in h[i];
      assert Has(h, i, x);
      assert Has(g, i, x);
    }
  }

  lemma KeptHas<T>(g: Groups<T>, keep: (Imp, T) -> bool)
    ensures Tight(Kept(g, keep))
    ensures forall i, x :: Has(Kept(g, keep), i, x) <==> Has(g, i, x) && keep(i, x)
  {
    forall i | i in Kept(g, keep) ensures Kept(g, keep)[i] != {} {
      var x :| x in g[i] && keep(i, x);
      assert x in Kept(g, keep)[i];
    }
  }

  lemma SurvivorsHas(env: Env)
    ensures Tight(Survivors(env))
    ensures forall i: Imp, c :: Has(Survivors(env), i, c) <==> i < env.impressions && Passes(env, i, c)
  {
    hide PolicyOpen, PolicyOnImp, CreativeOnImp, AudienceOk, UnderCaps;
    forall i | i in Survivors(env) ensures Survivors(env)[i] != {} {
      var c :| c in env.search(i) && Passes(env, i, c);
      assert c in Survivors(env)[i];
    }
  }

  /** The one condition, spelled out. */
  lemma PassesExactly(env: Env, i: Imp, c: Creative)
    ensures Passes(env, i, c) <==>
            && c in env.search(i)
            && c.policy.campaignid !in env.pausedCampaigns && c.policy.id !in env.pausedPolicies
            && env.policyFilter(c.policy) == 0 && env.policyExt(c.policy) == 0
            && env.policyImp(c.policy, i) == 0 && (|env.deviceids| > 0 || env.allowNoDeviceid(c.policy, i))
            && env.creativeImp(c, i) == 0 && env.creativeExt(c, i) == 0 && env.checkPrice(c, i, env.price(c, i)) == 0
            && (env.device == Unknown || (env.device == Known(false) && env.filterAudience(c.policy) == 0))
            && (forall d, f :: d in env.deviceids ==>
                  && (c.policy.campaignid in env.fullCampaign && f in env.fullCampaign[c.policy.campaignid] ==> !Contains(f, d))
                  && (c.policyid in env.fullPolicy && f in env.fullPolicy[c.policyid] ==> !Contains(f, d))
                  && (c.creativeid in env.fullCreative && f in env.fullCreative[c.creativeid] ==> !Contains(f, d)))
  {}

  lemma ContainsExactly(text: string, part: string)
    ensures Contains(text, part) <==> exists before: string, after: string :: text == before + part + after
  {
    if Contains(text, part) {
      var k :| 0 <= k <= |text| && part <= text[k..];
      assert text == text[..k] + part + text[k + |part|..];
    }
    if before: string, after: string :| text == before + part + after {
      assert text[|before|..] == part + after;
    }
  }

  /** The groups after AdjustImpCreativesByImpPolicies. */
  function Adjusted(found: Groups<Creative>, byImp: Groups<Policy>): Groups<Creative> {
    map i | i in found && i in byImp :: set c | c in found[i] && c.policy in byImp[i]
  }

  lemma AdjustedHas(env: Env, found: Groups<Creative>, open: set<Policy>)
    requires open == set p | p in PoliciesOf(found) && PolicyOpen(env, p)
    ensures var byImp := Kept(ImpPoliciesOf(found, open), AcceptsImp(env));
            forall i, c :: Has(Adjusted(found, byImp), i, c) <==>
                           Has(found, i, c) && PolicyOpen(env, c.policy) && PolicyOnImp(env, i, c.policy)
  {
    hide PolicyOpen, PolicyOnImp;
    var byImp := Kept(ImpPoliciesOf(found, open), AcceptsImp(env));
    forall i, c
      ensures Has(Adjusted(found, byImp), i, c) <==>
              Has(found, i, c) && PolicyOpen(env, c.policy) && PolicyOnImp(env, i, c.policy)
    {
      KeptHas(ImpPoliciesOf(found, open), AcceptsImp(env));
      if Has(found, i, c) {
        assert c.policy in open <==> PolicyOpen(env, c.policy);
        assert Has(byImp, i, c.policy) <==> Has(ImpPoliciesOf(found, open), i, c.policy) && AcceptsImp(env)(i, c.policy);
        assert Has(ImpPoliciesOf(found, open), i, c.policy) <==> c.policy in open;
        assert Has(Adjusted(found, byImp), i, c) <==> Has(byImp, i, c.policy);
      }
    }
  }

  /** Audience filtering works on the policies and is then brought back to the creatives. */
  lemma AudienceHas(env: Env, g: Groups<Creative>)
    ensures var heard := set p | p in PoliciesOf(g) && AudienceOk(env, p);
            forall i, c :: Has(Kept(g, WithPolicyIn(heard)), i, c) <==> Has(g, i, c) && AudienceOk(env, c.policy)
  {
    hide AudienceOk;
    var heard := set p | p in PoliciesOf(g) && AudienceOk(env, p);
    KeptHas(g, WithPolicyIn(heard));
    forall i, c ensures Has(Kept(g, WithPolicyIn(heard)), i, c) <==> Has(g, i, c) && AudienceOk(env, c.policy) {
      if Has(g, i, c) {
        assert c.policy in PoliciesOf(g);
      }
    }
  }

  function Found(env: Env): Groups<Creative> {
    map i | 0 <= i < env.impressions :: env.search(i)
  }

  /** The stages up to bidding leave exactly what passes the one condition. */
  lemma StagesAreOneCondition(env: Env, open: set<Policy>, adjusted: Groups<Creative>, fitting: Groups<Creative>,
                              heard: set<Policy>, audience: Groups<Creative>, capped: Groups<Creative>)
    requires open == set p | p in PoliciesOf(Found(env)) && PolicyOpen(env, p)
    requires adjusted == Adjusted(Found(env), Kept(ImpPoliciesOf(Found(env), open), AcceptsImp(env)))
    requires fitting == Kept(adjusted, FitsImp(env))
    requires heard == set p | p in PoliciesOf(fitting) && AudienceOk(env, p)
    requires audience == Kept(fitting, WithPolicyIn(heard))
    requires capped == Kept(audience, WithinCaps(env))
    ensures capped == Survivors(env)
  {
    hide PolicyOpen, PolicyOnImp, CreativeOnImp, AudienceOk, UnderCaps, Kept, Adjusted, PoliciesOf, Survivors, ImpPoliciesOf;
    AdjustedHas(env, Found(env), open);
    KeptHas(adjusted, FitsImp(env));
    AudienceHas(env, fitting);
    KeptHas(audience, WithinCaps(env));
    SurvivorsHas(env);
    forall i, c ensures Has(capped, i, c) <==> Has(Survivors(env), i, c) {
      assert Has(capped, i, c) <==> Has(audience, i, c) && UnderCaps(env, c);
      assert Has(audience, i, c) <==> Has(fitting, i, c) && AudienceOk(env, c.policy);
      assert Has(fitting, i, c) <==> Has(adjusted, i, c) && CreativeOnImp(env, i, c);
    }
    SameGroups(capped, Survivors(env));
  }

  /** The sets between the stages. */
  datatype Stages = Stages(open: set<Policy>, byImp: Groups<Policy>, fitting: Groups<Creative>, heard: set<Policy>)

  ghost function StagesOf(env: Env): Stages {
    var open := set p | p in PoliciesOf(Found(env)) && PolicyOpen(env, p);
    var byImp := Kept(ImpPoliciesOf(Found(env), open), AcceptsImp(env));
    var fitting := Kept(Adjusted(Found(env), byImp), FitsImp(env));
    Stages(open, byImp, fitting, set p | p in PoliciesOf(fitting) && AudienceOk(env, p))
  }

  /** A survivor is seen at every stage, so a stage with nothing left means that nothing survives. */
  lemma SurvivorSeen(env: Env)
    ensures var s := StagesOf(env);
            PoliciesOf(Found(env)) == {} || s.open == {} || s.byImp == map[] || s.fitting == map[] || s.heard == {}
            ==> Survivors(env) == map[]
  {
    hide PolicyOpen, PolicyOnImp, CreativeOnImp, AudienceOk, UnderCaps, Kept, ImpPoliciesOf, Survivors;
    var s := StagesOf(env);
    SurvivorsHas(env);
    AdjustedHas(env, Found(env), s.open);
    KeptHas(Adjusted(Found(env), s.byImp), FitsImp(env));
    if i :| i in Survivors(env) {
      var c :| c in Survivors(env)[i];
      assert Has(Survivors(env), i, c);
      assert Has(Found(env), i, c);
      assert c.policy in PoliciesOf(Found(env)) && c.policy in s.open;
      assert Has(Adjusted(Found(env), s.byImp), i, c);
      assert i in s.byImp && Has(s.fitting, i, c);
      assert c.policy in PoliciesOf(s.fitting) && c.policy in s.heard;
    }
  }

  lemma AdjustedWithin(env: Env, byImp: Groups<Policy>)
    ensures Within(env, Adjusted(Found(env), byImp))
  {}

  /** Every survivor has had its price remembered. */
  lemma SurvivorsPriced(env: Env, fitting: Groups<Creative>, heard: set<Policy>, prices: map<int, int>)
    requires Priced(fitting, prices)
    ensures Priced(Kept(Kept(fitting, WithPolicyIn(heard)), WithinCaps(env)), prices)
  {
    hide UnderCaps;
  }

  // ---- through the remembered prices ----

  /** Only the check of a creative on an impression looks at prices. */
  lemma PriceFree(env: Env, m: map<int, int>)
    ensures var seen := AsRemembered(env, m);
            && Found(seen) == Found(env)
            && (forall p :: PolicyOpen(seen, p) <==> PolicyOpen(env, p))
            && (forall i, p :: PolicyOnImp(seen, i, p) <==> PolicyOnImp(env, i, p))
            && (forall p :: AudienceOk(seen, p) <==> AudienceOk(env, p))
            && forall c :: UnderCaps(seen, c) <==> UnderCaps(env, c)
  {
    hide Full;
  }

  lemma KeptSame<T>(g: Groups<T>, keep: (Imp, T) -> bool, keep': (Imp, T) -> bool)
    requires forall i, x :: keep(i, x) == keep'(i, x)
    ensures Kept(g, keep) == Kept(g, keep')
  {
    KeptHas(g, keep);
    KeptHas(g, keep');
    hide Kept, Has, Tight;
    assert forall i, x :: Has(Kept(g, keep), i, x) <==> Has(Kept(g, keep'), i, x);
    SameGroups(Kept(g, keep), Kept(g, keep'));
  }

  /** The stages are the same, whatever is remembered, as far as the impressions' policies. */
  lemma SameStages(env: Env, m: map<int, int>)
    ensures StagesOf(AsRemembered(env, m)).open == StagesOf(env).open
    ensures StagesOf(AsRemembered(env, m)).byImp == StagesOf(env).byImp
  {
    hide PolicyOpen, PolicyOnImp, AudienceOk, UnderCaps, Kept, ImpPoliciesOf, PoliciesOf, AsRemembered, Found, Adjusted;
    PriceFree(env, m);
    var seen := AsRemembered(env, m);
    assert StagesOf(seen).open == StagesOf(env).open;
    KeptSame(ImpPoliciesOf(Found(env), StagesOf(env).open), AcceptsImp(env), AcceptsImp(seen));
  }

  /** A mapid with one price: then looking through the remembered prices changes nothing. */
  lemma ConsistentSame(env: Env, m: map<int, int>)
    requires ConsistentPrices(env) && Genuine(env, m)
    ensures Survivors(AsRemembered(env, m)) == Survivors(env)
    ensures forall i :: i in Survivors(env) ==>
              Finalists(AsRemembered(env, m), i, Survivors(env)[i]) == Finalists(env, i, Survivors(env)[i])
  {
    var seen := AsRemembered(env, m);
    PriceFree(env, m);
    SurvivorsHas(env);
    SurvivorsHas(seen);
    forall i: Imp, c ensures Has(Survivors(seen), i, c) <==> Has(Survivors(env), i, c) {
      if i < env.impressions && c in env.search(i) {
        GenuineIsRight(env, m, i, c);
        SameFit(env, m, i, c);
        hide PolicyOpen, PolicyOnImp, CreativeOnImp, AudienceOk, UnderCaps, Survivors;
      }
    }
    hide PolicyOpen, PolicyOnImp, CreativeOnImp, AudienceOk, UnderCaps, Genuine, ConsistentPrices, Finalists, AsRemembered;
    SameGroups(Survivors(seen), Survivors(env));
    forall i | i in Survivors(env)
      ensures Finalists(seen, i, Survivors(env)[i]) == Finalists(env, i, Survivors(env)[i])
    {
      forall c | c in Survivors(env)[i] ensures Ask(env, m, i, c) == env.price(c, i) {
        assert Has(Survivors(env), i, c);
        GenuineIsRight(env, m, i, c);
      }
      SameFinalists(env, m, i, Survivors(env)[i]);
    }
  }

  lemma SameFit(env: Env, m: map<int, int>, i: Imp, c: Creative)
    requires Ask(env, m, i, c) == env.price(c, i)
    ensures CreativeOnImp(AsRemembered(env, m), i, c) <==> CreativeOnImp(env, i, c)
  {}

  lemma SameFinalists(env: Env, m: map<int, int>, i: Imp, s: set<Creative>)
    requires forall c :: c in s ==> Ask(env, m, i, c) == env.price(c, i)
    ensures Finalists(AsRemembered(env, m), i, s) == Finalists(env, i, s)
  {
    var seen := AsRemembered(env, m);
    assert Preferred(seen, s) == Preferred(env, s);
    var t := Preferred(env, s);
    assert Priciest(seen, i, t) == Priciest(env, i, t) by {
      assert forall c :: c in t ==> seen.price(c, i) == env.price(c, i);
    }
    SameTrade(env, m, Priciest(env, i, t));
    hide Preferred, Priciest, ByTrade;
  }

  lemma SameTrade(env: Env, m: map<int, int>, s: set<Creative>)
    ensures ByTrade(AsRemembered(env, m), s) == ByTrade(env, s)
  {
    var seen := AsRemembered(env, m);
    assert Unclicked(seen, s) == Unclicked(env, s);
    assert forall a :: LastRelevant(seen, Unclicked(env, s), a) <==> LastRelevant(env, Unclicked(env, s), a);
  }

  /** What SelectAd promises of a request. */
  ghost predicate Selected(env: Env, r: Ending, won: Groups<Creative>) {
    && (r.NoBid? <==> Survivors(env) == map[])
    && (r.Crash? <==> exists i :: i in Survivors(env) && Stuck(env, i, Survivors(env)[i]))
    && (r.Bid? ==> Winners(env, Survivors(env), won))
  }

  /** The same without the stages: every survivor group has one winner that can win, unless in some nobody can. */
  ghost predicate Fair(env: Env, r: Ending, won: Groups<Creative>) {
    && (r.NoBid? <==> forall i: Imp, c :: i < env.impressions ==> !Passes(env, i, c))
    && (r.Crash? <==> exists i :: i in Survivors(env) && forall c :: !CanWin(env, i, Survivors(env)[i], c))
    && (r.Bid? ==>
          && won.Keys == Survivors(env).Keys
          && forall i :: i in won ==> exists c :: CanWin(env, i, Survivors(env)[i], c) && won[i] == {c})
  }

  lemma SelectedIsFair(env: Env, r: Ending, won: Groups<Creative>)
    requires Selected(env, r, won)
    ensures Fair(env, r, won)
  {
    hide CanWin, Finalists, Passes, Survivors;
    var g := Survivors(env);
    NoSurvivors(env);
    forall i, c | i in g ensures c in Finalists(env, i, g[i]) <==> CanWin(env, i, g[i], c) {
      FinalistsCanWin(env, i, g[i], c);
    }
  }

  lemma NoSurvivors(env: Env)
    ensures Survivors(env) == map[] <==> forall i: Imp, c :: i < env.impressions ==> !Passes(env, i, c)
  {
    hide PolicyOpen, PolicyOnImp, CreativeOnImp, AudienceOk, UnderCaps;
    forall i: Imp, c | i < env.impressions && Passes(env, i, c) ensures i in Survivors(env) {
      assert c in env.search(i);
    }
  }

  lemma ConsistentSelected(env: Env, m: map<int, int>, r: Ending, won: Groups<Creative>)
    requires ConsistentPrices(env) && Genuine(env, m) && Selected(AsRemembered(env, m), r, won)
    ensures Selected(env, r, won)
  {
    hide ConsistentPrices, Genuine, Survivors, Finalists, AsRemembered;
    ConsistentSame(env, m);
  }

  /** SelectAd, on candidates that were cleared for the request: what it promises holds of the request as
      seen through the remembered prices, and of the request itself if a mapid has one price. */
  method SelectAd(env: Env, candidates: Candidates) returns (r: Ending)
    requires candidates.impPolicies == map[] && candidates.impCreatives == map[] && candidates.creativePrice == map[]
    requires forall a :: env.relevancy(a) >= 0.0
    modifies candidates
    ensures Genuine(env, candidates.creativePrice)
    ensures Selected(AsRemembered(env, candidates.creativePrice), r, candidates.impCreatives)
    ensures ConsistentPrices(env) ==> Selected(env, r, candidates.impCreatives)
    ensures Fair(AsRemembered(env, candidates.creativePrice), r, candidates.impCreatives)
    ensures ConsistentPrices(env) ==> Fair(env, r, candidates.impCreatives)
  {
    hide Selected, ConsistentPrices, Genuine, AsRemembered, Fair;
    r := SelectStages(env, candidates);
    SelectedIsFair(AsRemembered(env, candidates.creativePrice), r, candidates.impCreatives);
    if ConsistentPrices(env) {
      ConsistentSelected(env, candidates.creativePrice, r, candidates.impCreatives);
      SelectedIsFair(env, r, candidates.impCreatives);
    }
  }

  lemma NoPrices(env: Env)
    ensures Genuine(env, map[])
  {}

  /** Its stages up to the filter that asks for prices. */
  method SelectStages(env: Env, candidates: Candidates) returns (r: Ending)
    requires candidates.impPolicies == map[] && candidates.impCreatives == map[] && candidates.creativePrice == map[]
    requires forall a :: env.relevancy(a) >= 0.0
    modifies candidates
    ensures Genuine(env, candidates.creativePrice)
    ensures Selected(AsRemembered(env, candidates.creativePrice), r, candidates.impCreatives)
  {
    hide PolicyOpen, PolicyOnImp, CreativeOnImp, AudienceOk, UnderCaps, Kept, ImpPoliciesOf, Survivors, Stuck, PoliciesOf;
    hide Winners, Finalists, AsRemembered, Genuine;
    ghost var s, seen := StagesOf(env), AsRemembered(env, map[]);
    SameStages(env, map[]);
    PriceFree(env, map[]);
    NoPrices(env);
    SurvivorSeen(seen);
    NoneStuck(seen);
    candidates.FilterCreative(env);
    assert candidates.impCreatives == Found(env);
    candidates.ImpCreative2Policies();
    if candidates.policies == {} {
      return NoBid;
    }
    candidates.FilterPolicies(env);
    assert candidates.policies == s.open;
    if candidates.policies == {} {
      return NoBid;
    }
    candidates.MakeImpPolicies();
    candidates.FilterPoliciesByImp(env);
    assert candidates.impPolicies == s.byImp;
    if candidates.impPolicies == map[] {
      return NoBid;
    }
    candidates.AdjustImpCreativesByImpPolicies();
    assert candidates.impCreatives == Adjusted(Found(env), s.byImp);
    AdjustedWithin(env, s.byImp);
    candidates.FilterCreativeByImp(env);
    SameStages(env, candidates.creativePrice);
    PriceFree(env, candidates.creativePrice);
    r := SelectPriced(env, candidates);
  }

  lemma NoneStuck(env: Env)
    ensures Survivors(env) == map[] ==> forall won :: Selected(env, NoBid, won)
  {
    hide Survivors, Stuck, Winners;
  }

  /** The stages behind it; what is remembered no longer changes. */
  method SelectPriced(env: Env, candidates: Candidates) returns (r: Ending)
    requires candidates.impCreatives == StagesOf(AsRemembered(env, candidates.creativePrice)).fitting
    requires Priced(candidates.impCreatives, candidates.creativePrice)
    requires forall a :: env.relevancy(a) >= 0.0
    modifies candidates`policies, candidates`impCreatives
    ensures Selected(AsRemembered(env, candidates.creativePrice), r, candidates.impCreatives)
  {
    hide PolicyOpen, PolicyOnImp, CreativeOnImp, AudienceOk, UnderCaps, Kept, ImpPoliciesOf, Survivors, Stuck, PoliciesOf;
    hide Winners, Finalists, Adjusted;
    var seen := AsRemembered(env, candidates.creativePrice);
    ghost var s := StagesOf(seen);
    SurvivorSeen(seen);
    NoneStuck(seen);
    PriceFree(env, candidates.creativePrice);
    if candidates.impCreatives == map[] {
      return NoBid;
    }
    candidates.ImpCreative2Policies();
    candidates.FilterByAudience(env);
    assert candidates.policies == s.heard;
    if candidates.policies == {} {
      return NoBid;
    }
    candidates.AdjustImpCreativesByPolicies();
    ghost var audience := candidates.impCreatives;
    candidates.FilterByFrequency(env);
    KeptSame(audience, WithinCaps(env), WithinCaps(seen));
    StagesAreOneCondition(seen, s.open, Adjusted(Found(seen), s.byImp), s.fitting, s.heard, audience,
                          candidates.impCreatives);
    if candidates.impCreatives == map[] {
      return NoBid;
    }
    SurvivorsPriced(seen, s.fitting, s.heard, candidates.creativePrice);
    var ok, won := FilterByCreativeBidding(seen, candidates.impCreatives, candidates.creativePrice);
    if !ok {
      return Crash;
    }
    candidates.impCreatives := won;
    r := Bid;
  }
}

/** What a request asks of a creative, taken as one condition, and the frequency filter. */
module AdFilter {
  /** An impression is known by its position in the request. */
  type Imp = nat

  /** A policy and a creative stand for the objects the source points to. */
  datatype Policy = Policy(id: int, campaignid: int, advcat: int)

  datatype Creative = Creative(mapid: int, creativeid: int, policyid: int, policy: Policy, hasDeeplink: bool)

  /** No data in the cluster, or the data of the device. */
  datatype Device = Unknown | Known(blGlobal: bool)

  /** The request, the ads and the control data; 0 is E_SUCCESS. */
  datatype Env = Env(
    impressions: nat,
    search: Imp -> set<Creative>,
    pausedCampaigns: set<int>,
    pausedPolicies: set<int>,
    policyFilter: Policy -> int,
    policyExt: Policy -> int,
    policyImp: (Policy, Imp) -> int,
    allowNoDeviceid: (Policy, Imp) -> bool,
    deviceids: seq<string>,
    creativeImp: (Creative, Imp) -> int,
    creativeExt: (Creative, Imp) -> int,
    price: (Creative, Imp) -> int,
    checkPrice: (Creative, Imp, int) -> int,
    device: Device,
    filterAudience: Policy -> int,
    fullCampaign: map<int, set<string>>,
    fullPolicy: map<int, set<string>>,
    fullCreative: map<int, set<string>>,
    supportDeeplink: bool,
    clicked: set<int>,
    relevancy: int -> real)

  predicate PolicyOpen(env: Env, p: Policy) {
    && p.campaignid !in env.pausedCampaigns && p.id !in env.pausedPolicies
    && env.policyFilter(p) == 0 && env.policyExt(p) == 0
  }

  predicate PolicyOnImp(env: Env, i: Imp, p: Policy) {
    env.policyImp(p, i) == 0 && (env.deviceids != [] || env.allowNoDeviceid(p, i))
  }

  predicate CreativeOnImp(env: Env, i: Imp, c: Creative) {
    env.creativeImp(c, i) == 0 && env.creativeExt(c, i) == 0 && env.checkPrice(c, i, env.price(c, i)) == 0
  }

  predicate AudienceOk(env: Env, p: Policy) {
    match env.device
    case Unknown => true
    case Known(blGlobal) => !blGlobal && env.filterAudience(p) == 0
  }

  /** string::find */
  predicate Contains(text: string, part: string) {
    exists k :: 0 <= k <= |text| && part <= text[k..]
  }

  /** The id has reached its cap for one of these devices. */
  predicate Full(full: map<int, set<string>>, ids: seq<string>, id: int) {
    id in full && exists d, f :: d in ids && f in full[id] && Contains(f, d)
  }

  predicate UnderCaps(env: Env, c: Creative) {
    && !Full(env.fullCampaign, env.deviceids, c.policy.campaignid)
    && !Full(env.fullPolicy, env.deviceids, c.policyid)
    && !Full(env.fullCreative, env.deviceids, c.creativeid)
  }

  /** Everything a creative must meet on an impression. */
  predicate Passes(env: Env, i: Imp, c: Creative) {
    && c in env.search(i) && PolicyOpen(env, c.policy) && PolicyOnImp(env, i, c.policy) && CreativeOnImp(env, i, c)
    && AudienceOk(env, c.policy) && UnderCaps(env, c)
  }

  type Groups<T> = map<Imp, set<T>>

  /** The impressions for which something passes, with all that passes. */
  function Survivors(env: Env): Groups<Creative> {
    map i | 0 <= i < env.impressions && exists c :: c in env.search(i) && Passes(env, i, c) ::
      set c | c in env.search(i) && Passes(env, i, c)
  }

  /** Remembers which ids it has found under or over their cap; for one request and one table. */
  class FrequencyFilter {
    var pass: set<int>
    var failed: set<int>

    ghost predicate Valid(full: map<int, set<string>>, ids: seq<string>)
      reads this
    {
      && (forall id :: id in pass ==> !Full(full, ids, id))
      && forall id :: id in failed ==> Full(full, ids, id)
    }

    constructor ()
      ensures pass == {} && failed == {}
    {
      pass, failed := {}, {};
    }

    method DeviceidInSet(ids: seq<string>, fullSet: set<string>) returns (r: bool)
      ensures r <==> exists d, f :: d in ids && f in fullSet && Contains(f, d)
    {
      for k := 0 to |ids|
        invariant forall d, f :: d in ids[..k] && f in fullSet ==> !Contains(f, d)
      {
        var todo := fullSet;
        while todo != {}
          invariant todo <= fullSet
          invariant forall f :: f in fullSet - todo ==> !Contains(f, ids[k])
          decreases |todo|
        {
          var f :| f in todo;
          if Contains(f, ids[k]) {
            return true;
          }
          todo := todo - {f};
        }
        assert ids[..k + 1] == ids[..k] + [ids[k]];
      }
      assert ids[..|ids|] == ids;
      return false;
    }

    /** The answer does not depend on what is remembered. */
    method Check(id: int, ids: seq<string>, full: map<int, set<string>>) returns (r: bool)
      requires Valid(full, ids)
      modifies this
      ensures Valid(full, ids)
      ensures r == !Full(full, ids, id)
    {
      if id in pass {
        return true;
      }
      if id in failed {
        return false;
      }
      if id !in full {
        pass := pass + {id};
        return true;
      }
      var reached := DeviceidInSet(ids, full[id]);
      if reached {
        failed := failed + {id};
        return false;
      }
      pass := pass + {id};
      return true;
    }
  }
}

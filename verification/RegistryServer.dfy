/** The server as its requests see it when they come one after another: cached endpoints over a provider
    that an administrator can replace. What happens when they overlap is the subject of `RegistryModel`. */
module RegistryServer {
  import opened Wrappers
  import opened AppCache

  /** What the provider answers, endpoint by endpoint. */
  type Answers<!K, !V> = (nat, K) -> Result<V>

  /** A request to a cached endpoint, or an update of the registry: the new url, what loading it yields, and
      whether the setting can be stored. */
  datatype Request<!K, !V> =
    | Ask(endpoint: nat, key: K)
    | Update(url: string, loaded: Result<Answers<K, V>>, stored: bool)

  datatype Reply<V> = Value(value: V) | Failed | Updated | Refused

  predicate Succeeds<K, V>(r: Request<K, V>) {
    r.Update? && r.url != "" && r.loaded.Ok? && r.stored
  }

  /** The same requests served without any cache. */
  function Provided<K, V>(answers: Answers<K, V>, requests: seq<Request<K, V>>): Answers<K, V> {
    if requests == [] then answers
    else
      var last := requests[|requests| - 1];
      if Succeeds(last) then last.loaded.value else Provided(answers, requests[..|requests| - 1])
  }

  function ReplyTo<K, V>(answers: Answers<K, V>, r: Request<K, V>): Reply<V> {
    match r
    case Ask(endpoint, key) => (match answers(endpoint, key) case Ok(value) => Value(value) case Err => Failed)
    case Update(_, _, _) => if Succeeds(r) then Updated else Refused
  }

  /** The url that should be stored after the requests. */
  function Setting<K, V>(url: string, requests: seq<Request<K, V>>): string {
    if requests == [] then url
    else
      var last := requests[|requests| - 1];
      if Succeeds(last) then last.url else Setting(url, requests[..|requests| - 1])
  }

  class Server<K(==, !new), V> {
    var answers: Answers<K, V>
    var providerUrl: string
    var setting: string
    const group: CacheGroup<K, V>

    /** Every cached value is what the live provider answers, and the setting names that provider. */
    ghost predicate Valid()
      reads this, group, group.caches
    {
      && setting == providerUrl
      && (forall i, j :: 0 <= i < j < |group.caches| ==> group.caches[i] != group.caches[j])
      && forall i, k :: 0 <= i < |group.caches| && k in group.caches[i].entries ==>
           answers(i, k) == Ok(group.caches[i].entries[k])
    }

    /** Builds `endpoints` caches and registers each of them. */
    constructor (url: string, answers: Answers<K, V>, endpoints: nat, forgets: (nat, nat) -> set<K>)
      ensures Valid() && fresh(group) && fresh(group.caches) && |group.caches| == endpoints
      ensures providerUrl == url && this.answers == answers
    {
      this.answers, providerUrl, setting := answers, url, url;
      group := new CacheGroup<K, V>();
      new;
      for i := 0 to endpoints
        invariant |group.caches| == i && fresh(group) && fresh(group.caches)
        invariant providerUrl == url && setting == url && this.answers == answers
        invariant forall j, l :: 0 <= j < l < i ==> group.caches[j] != group.caches[l]
        invariant forall j :: 0 <= j < i ==> group.caches[j].entries == map[]
      {
        var endpoint: nat := i;
        var cache := new AppCache<K, V>((use: nat) => forgets(endpoint, use));
        group.Register(cache);
      }
    }

    /** A cached endpoint answers exactly what the live provider would, and asks the provider only if the
        cache does not have the value, or no longer. */
    method AskEndpoint(endpoint: nat, key: K) returns (r: Result<V>)
      requires Valid() && endpoint < |group.caches|
      modifies group.caches
      ensures Valid() && r == answers(endpoint, key)
      ensures var cache := group.caches[endpoint];
        var hit := key in old(cache.entries) && key !in cache.forgets(old(cache.uses));
        cache.log == old(cache.log) + if hit || r.Err? then [] else [(key, r.value)]
    {
      var live := answers;
      r := group.caches[endpoint].GetOrTryInsert(key, k => live(endpoint, k));
    }

    /** `put_registry`: a failed update changes nothing, and after a successful one no cache holds anything
        of the old provider. */
    method PutRegistry(url: string, loaded: Result<Answers<K, V>>, stored: bool) returns (ok: bool)
      requires Valid()
      modifies this`answers, this`providerUrl, this`setting, group.caches
      ensures Valid() && (ok <==> url != "" && loaded.Ok? && stored)
      ensures ok ==> answers == loaded.value && setting == url && forall c :: c in group.caches ==> c.entries == map[]
      ensures !ok ==> answers == old(answers) && setting == old(setting)
      ensures !ok ==> forall c :: c in group.caches ==> c.entries == old(c.entries)
    {
      if url == "" || loaded.Err? {
        return false;
      }
      if !stored {
        return false;
      }
      setting := url;
      answers, providerUrl := loaded.value, url;
      group.InvalidateAll();
      return true;
    }
  }

  lemma OneMoreRequest<K, V>(answers: Answers<K, V>, url: string, requests: seq<Request<K, V>>, i: nat)
    requires i < |requests|
    ensures Provided(answers, requests[..i + 1])
         == if Succeeds(requests[i]) then requests[i].loaded.value else Provided(answers, requests[..i])
    ensures Setting(url, requests[..i + 1]) == if Succeeds(requests[i]) then requests[i].url else Setting(url, requests[..i])
  {
    assert requests[..i + 1][..i] == requests[..i];
  }

  /** Any requests, asks and updates in any order, are answered as a server without caches answers them. */
  method Serve<K(==, !new), V>(url: string, answers: Answers<K, V>, endpoints: nat, forgets: (nat, nat) -> set<K>,
                                 requests: seq<Request<K, V>>)
    returns (replies: seq<Reply<V>>, setting: string)
    requires forall i :: 0 <= i < |requests| && requests[i].Ask? ==> requests[i].endpoint < endpoints
    ensures |replies| == |requests| && setting == Setting(url, requests)
    ensures forall i :: 0 <= i < |requests| ==> replies[i] == ReplyTo(Provided(answers, requests[..i]), requests[i])
    ensures forall i :: 0 <= i < |requests| && requests[i].Ask? ==>
      var live := Provided(answers, requests[..i])(requests[i].endpoint, requests[i].key);
      if live.Ok? then replies[i] == Value(live.value) else replies[i] == Failed
    ensures forall i :: 0 <= i < |requests| && requests[i].Update? ==>
      replies[i] == if requests[i].url != "" && requests[i].loaded.Ok? && requests[i].stored then Updated else Refused
  {
    hide Provided, Setting;
    var server := new Server(url, answers, endpoints, forgets);
    replies := [];
    assert Provided(answers, requests[..0]) == answers && Setting(url, requests[..0]) == url by {
      NoRequests(answers, url, requests);
    }
    for i := 0 to |requests|
      invariant server.Valid() && fresh(server) && fresh(server.group) && fresh(server.group.caches)
      invariant |server.group.caches| == endpoints && |replies| == i
      invariant server.answers == Provided(answers, requests[..i]) && server.setting == Setting(url, requests[..i])
      invariant forall j :: 0 <= j < i ==> replies[j] == ReplyTo(Provided(answers, requests[..j]), requests[j])
    {
      OneMoreRequest(answers, url, requests, i);
      var reply: Reply<V>;
      match requests[i] {
        case Ask(endpoint, key) =>
          var r := server.AskEndpoint(endpoint, key);
          reply := match r case Ok(value) => Value(value) case Err => Failed;
        case Update(newUrl, loaded, stored) =>
          var ok := server.PutRegistry(newUrl, loaded, stored);
          reply := if ok then Updated else Refused;
      }
      replies := replies + [reply];
    }
    assert requests[..|requests|] == requests;
    setting := server.setting;
  }

  lemma NoRequests<K, V>(answers: Answers<K, V>, url: string, requests: seq<Request<K, V>>)
    ensures Provided(answers, requests[..0]) == answers && Setting(url, requests[..0]) == url
  {
  }
}

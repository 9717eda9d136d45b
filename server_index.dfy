/**
 * The two rules of the server entry point that the session stores depend on when several
 * worker processes run: the key the load balancer hashes to pin every request of a session
 * to one worker, and the cleanup options each process gives its session store.
 *
 * `getSessionId` (the extraction of a session id from a URL) is not part of this model: it
 * is a parameter that returns `""` where the original returns a falsy value. The query
 * string of the request URL comes already split into name/value pairs, in order.
 */
module ServerIndex {
  import opened Wrappers

  /** `URLSearchParams.get(name)`: the value of the first pair with that name, `""` standing for `null`. */
  function Param(query: seq<(string, string)>, name: string): (r: string)
    ensures r != "" ==> exists i :: 0 <= i < |query| && query[i] == (name, r)
    ensures (forall i :: 0 <= i < |query| ==> query[i].0 != name) ==> r == ""
    ensures forall i :: 0 <= i < |query| && query[i].0 == name && (forall k :: 0 <= k < i ==> query[k].0 != name)
                        ==> r == query[i].1
  {
    if |query| == 0 then ""
    else if query[0].0 == name then query[0].1
    else
      var r := Param(query[1..], name);
      assert r != "" ==> exists i :: 0 <= i < |query[1..]| && query[1..][i] == (name, r);
      forall i | 0 < i < |query| && query[i].0 == name && (forall k :: 0 <= k < i ==> query[k].0 != name)
        ensures r == query[i].1
      {
        assert query[1..][i - 1] == query[i];
        assert forall k :: 0 <= k < i - 1 ==> query[1..][k] == query[k + 1];
      }
      r
  }

  /** `toLowerCase` on the letters A to Z. */
  function LowerAscii(s: string): (r: string)
    ensures |r| == |s|
    ensures forall i :: 0 <= i < |s| ==> r[i] == if 'A' <= s[i] <= 'Z' then (s[i] as int + 32) as char else s[i]
  {
    if |s| == 0 then ""
    else [if 'A' <= s[0] <= 'Z' then (s[0] as int + 32) as char else s[0]] + LowerAscii(s[1..])
  }

  /** A raw header name that is `referer` in any letter case. */
  predicate IsReferer(name: string) {
    LowerAscii(name) == "referer"
  }

  /**
   * The index of the first name in the raw header list (names and values alternating)
   * that is `referer`, looking at the names from position `i` on.
   */
  function FirstReferer(headers: seq<string>, i: nat): (r: Option<nat>)
    requires i % 2 == 0 && |headers| % 2 == 0
    decreases |headers| - i
    ensures r.Some? ==> r.value % 2 == 0 && r.value + 1 < |headers|
  {
    if i >= |headers| then None
    else if IsReferer(headers[i]) then Some(i)
    else FirstReferer(headers, i + 2)
  }

  /** The referer scan finds the first header name that is `referer`, and finds none only when there is none. */
  lemma {:induction false} FirstRefererExactly(headers: seq<string>, i: nat)
    requires i % 2 == 0 && |headers| % 2 == 0
    decreases |headers| - i
    ensures FirstReferer(headers, i).Some? ==>
      var j := FirstReferer(headers, i).value;
      && i <= j < |headers| && j % 2 == 0 && IsReferer(headers[j])
      && forall k :: i <= k < j && k % 2 == 0 ==> !IsReferer(headers[k])
    ensures FirstReferer(headers, i).None? ==>
      forall k :: i <= k < |headers| && k % 2 == 0 ==> !IsReferer(headers[k])
  {
    if i < |headers| && !IsReferer(headers[i]) {
      FirstRefererExactly(headers, i + 2);
      forall k | i <= k < |headers| && k % 2 == 0 && k != i ensures k >= i + 2 {
      }
    }
  }

  /**
   * The key a request is routed by: the session id in the URL path, else the query
   * parameter `id`, else `sessionId`, else the session id in the value of the first
   * `referer` header, else a single space.
   */
  function RoutingKey(getSessionId: string -> string, url: string, query: seq<(string, string)>,
                      headers: seq<string>): (key: string)
    requires |headers| % 2 == 0
  {
    var fromPath := getSessionId(url);
    if fromPath != "" then fromPath
    else
      var fromQuery := if Param(query, "id") != "" then Param(query, "id") else Param(query, "sessionId");
      if fromQuery != "" then fromQuery
      else
        var fromReferer := match FirstReferer(headers, 0)
          case Some(j) => getSessionId(headers[j + 1])
          case None => "";
        if fromReferer != "" then fromReferer else " "
  }

  /**
   * The sources are tried in order and the first that gives an id decides; a request
   * without any gives the shared key `" "`. The key is never empty.
   */
  lemma RoutingKeyOrder(getSessionId: string -> string, url: string, query: seq<(string, string)>,
                        headers: seq<string>)
    requires |headers| % 2 == 0
    ensures RoutingKey(getSessionId, url, query, headers) != ""
    ensures getSessionId(url) != "" ==> RoutingKey(getSessionId, url, query, headers) == getSessionId(url)
    ensures getSessionId(url) == "" && Param(query, "id") != "" ==>
      RoutingKey(getSessionId, url, query, headers) == Param(query, "id")
    ensures getSessionId(url) == "" && Param(query, "id") == "" && Param(query, "sessionId") != "" ==>
      RoutingKey(getSessionId, url, query, headers) == Param(query, "sessionId")
    ensures getSessionId(url) == "" && Param(query, "id") == "" && Param(query, "sessionId") == "" ==>
      forall j :: (0 <= j < |headers| && j % 2 == 0 && IsReferer(headers[j])
                   && forall k :: 0 <= k < j && k % 2 == 0 ==> !IsReferer(headers[k])) ==>
        RoutingKey(getSessionId, url, query, headers) ==
          if getSessionId(headers[j + 1]) != "" then getSessionId(headers[j + 1]) else " "
    ensures (&& getSessionId(url) == "" && Param(query, "id") == "" && Param(query, "sessionId") == ""
             && forall k :: 0 <= k < |headers| && k % 2 == 0 ==> !IsReferer(headers[k])) ==>
      RoutingKey(getSessionId, url, query, headers) == " "
  {
    FirstRefererExactly(headers, 0);
  }

  /** `key.split('').map(e => e.charCodeAt())`: one code per character, in order. */
  function CharCodes(key: string): (codes: seq<int>)
    ensures |codes| == |key|
    ensures forall i :: 0 <= i < |key| ==> codes[i] == key[i] as int
  {
    seq(|key|, i requires 0 <= i < |key| => key[i] as int)
  }

  /** Different keys hash from different code sequences: the codes determine the key. */
  lemma CharCodesInjective(a: string, b: string)
    requires CharCodes(a) == CharCodes(b)
    ensures a == b
  {
    assert |a| == |b|;
    forall i | 0 <= i < |a| ensures a[i] == b[i] {
      assert CharCodes(a)[i] == CharCodes(b)[i];
    }
  }

  /**
   * `generatePrehashArray(req)`: the session id is looked for in the path, the query and
   * the raw headers in turn, and its character codes are handed to the balancer.
   */
  method GeneratePrehashArray(getSessionId: string -> string, url: string, query: seq<(string, string)>,
                              headers: seq<string>)
    returns (codes: seq<int>)
    requires |headers| % 2 == 0
    ensures codes == CharCodes(RoutingKey(getSessionId, url, query, headers))
  {
    var sessionId := getSessionId(url);
    if sessionId == "" {
      sessionId := Param(query, "id");
      if sessionId == "" {
        sessionId := Param(query, "sessionId");
      }
      if sessionId == "" {
        var i := 0;
        while i < |headers|
          invariant 0 <= i <= |headers| && i % 2 == 0
          invariant FirstReferer(headers, i) == FirstReferer(headers, 0)
          decreases |headers| - i
        {
          if LowerAscii(headers[i]) == "referer" {
            sessionId := getSessionId(headers[i + 1]);
            break;
          }
          i := i + 2;
        }
        if sessionId == "" {
          sessionId := " ";
        }
      }
    }
    codes := CharCodes(sessionId);
  }

  /** The stale-session cleanup settings of the session file cache. */
  datatype CleanupOptions = CleanupOptions(staleTimeout: Option<int>, maxToLive: Option<int>, staleCheckInterval: int)

  /** The value of `staleCleanupOptions` a store is given: left out, `null`, or an object. */
  datatype CleanupSetting = Unset | NullSetting | Given(options: CleanupOptions)

  /** The default of the session file cache: one day idle, four days in all, checked hourly. */
  const DefaultCleanup: CleanupOptions :=
    CleanupOptions(Some(1000 * 60 * 60 * 24 * 1), Some(1000 * 60 * 60 * 24 * 4), 1000 * 60 * 60 * 1)

  /**
   * The cleanup the store schedules: the default when the setting is left out, none for
   * `null`, otherwise the given one.
   */
  function ScheduledCleanup(setting: CleanupSetting): (r: Option<CleanupOptions>)
    ensures r.None? <==> setting == NullSetting
    ensures setting.Given? ==> r == Some(setting.options)
    ensures setting == Unset ==> r == Some(DefaultCleanup)
  {
    match setting
    case Unset => Some(DefaultCleanup)
    case NullSetting => None
    case Given(options) => Some(options)
  }

  /** The setting a process passes to its store: the configured one in the master, `null` elsewhere. */
  function StoreCleanupSetting(isMaster: bool, configured: CleanupSetting): CleanupSetting {
    if isMaster then configured else NullSetting
  }

  /**
   * Only the master sweeps stale sessions off the shared folder: a worker's store never
   * schedules the sweep, while the master's schedules what is configured.
   */
  lemma OnlyMasterSweeps(isMaster: bool, configured: CleanupSetting)
    ensures ScheduledCleanup(StoreCleanupSetting(isMaster, configured)).Some? <==>
      isMaster && configured != NullSetting
    ensures isMaster ==> ScheduledCleanup(StoreCleanupSetting(isMaster, configured)) == ScheduledCleanup(configured)
  {
  }
}

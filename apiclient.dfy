/** The part of `TorBoxAPIClient` that is decided locally: the query-string
    parser used for list filters and the parameters of the download-link
    requests. The HTTP calls themselves, and the retry decorator around them,
    are not modelled. */
module ApiClient {
  import opened Wrappers
  import opened Text
  import opened PyValues

  /** `param.split('=', 1)` for a segment holding `=`; `None` for one without. */
  function SegmentPair(segment: string): (r: Option<(string, string)>)
    ensures r.None? <==> '=' !in segment
    ensures r.Some? ==> '=' !in r.value.0 && segment == r.value.0 + "=" + r.value.1
  {
    var i := IndexOf(segment, '=');
    if i == |segment| then None
    else
      assert segment == segment[..i] + "=" + segment[i + 1..];
      Some((segment[..i], segment[i + 1..]))
  }

  /** The dictionary after the loop has seen `segments`, in order. */
  function Pairs(segments: seq<string>): map<string, string>
  {
    if segments == [] then map[]
    else
      var m := Pairs(segments[..|segments| - 1]);
      match SegmentPair(segments[|segments| - 1])
      case Some(kv) => m[kv.0 := kv.1]
      case None => m
  }

  /** What `_parse_query_string` returns: `None` for a missing or empty query
      and for one without any `key=value` segment. */
  function ParsedQuery(query: Option<string>): Option<map<string, string>>
  {
    if query.None? || query.value == "" then None
    else
      var m := Pairs(Split(query.value, '&'));
      if m == map[] then None else Some(m)
  }

  /** The segment assigns key `k`. */
  predicate Assigns(segment: string, k: string)
  {
    SegmentPair(segment).Some? && SegmentPair(segment).value.0 == k
  }

  /** The dictionary with one segment more. */
  lemma PairsSnoc(segments: seq<string>, segment: string)
    ensures Pairs(segments + [segment]) ==
            match SegmentPair(segment)
            case Some(kv) => Pairs(segments)[kv.0 := kv.1]
            case None => Pairs(segments)
  {
    assert (segments + [segment])[..|segments|] == segments;
  }

  /** A key is in the dictionary exactly when some segment assigns it. */
  lemma {:induction false} KeysAssigned(segments: seq<string>, k: string)
    ensures k in Pairs(segments) <==> exists j :: 0 <= j < |segments| && Assigns(segments[j], k)
  {
    if segments != [] {
      var n := |segments| - 1;
      var init := segments[..n];
      KeysAssigned(init, k);
      PairsSnoc(init, segments[n]);
      assert segments == init + [segments[n]];
      if j :| 0 <= j < n && Assigns(init[j], k) {
        assert segments[j] == init[j];
      }
      if j :| 0 <= j < |segments| && Assigns(segments[j], k) {
        if j < n {
          assert init[j] == segments[j];
        }
      }
    }
  }

  /** A key's value is the one of the last segment that assigns it. */
  lemma {:induction false} LastValueWins(segments: seq<string>, k: string, j: nat)
    requires j < |segments| && Assigns(segments[j], k)
    requires forall l :: j < l < |segments| ==> !Assigns(segments[l], k)
    ensures k in Pairs(segments) && Pairs(segments)[k] == SegmentPair(segments[j]).value.1
  {
    var n := |segments| - 1;
    var init := segments[..n];
    PairsSnoc(init, segments[n]);
    assert segments == init + [segments[n]];
    if j < n {
      assert init[j] == segments[j];
      forall l | j < l < |init|
        ensures !Assigns(init[l], k)
      {
        assert init[l] == segments[l];
      }
      LastValueWins(init, k, j);
    }
  }

  /** With no segment holding `=`, the result is `None`, not an empty dictionary. */
  lemma NoPairsNone(query: string)
    requires forall i :: 0 <= i < |Split(query, '&')| ==> '=' !in Split(query, '&')[i]
    ensures ParsedQuery(Some(query)) == None
  {
    var segments := Split(query, '&');
    if query != "" && Pairs(segments) != map[] {
      var k :| k in Pairs(segments);
      KeysAssigned(segments, k);
    }
  }

  /** A `key=value` segment splits at the `=` after the key. */
  lemma SegmentOf(key: string, value: string)
    requires '=' !in key
    ensures SegmentPair(key + "=" + value) == Some((key, value))
  {
    var q := key + "=" + value;
    IndexOfAfter(key, '=', value);
    assert q[..|key|] == key && q[|key| + 1..] == value;
  }

  /** Text without `&` is one segment. */
  lemma OneSegment(q: string)
    requires '&' !in q
    ensures Split(q, '&') == [q]
  {
    IndexOfAbsent(q, '&');
  }

  /** Two texts without `&`, joined by one, are two segments. */
  lemma TwoSegments(a: string, b: string)
    requires '&' !in a && '&' !in b
    ensures Split(a + "&" + b, '&') == [a, b]
  {
    var q := a + "&" + b;
    IndexOfAfter(a, '&', b);
    assert q[..|a|] == a && q[|a| + 1..] == b;
    OneSegment(b);
  }

  /** A single `key=value` parameter is read back with the value whole, even
      when the value itself holds `=`. */
  lemma SingleParameter(key: string, value: string)
    requires '=' !in key && '&' !in key && '&' !in value
    ensures ParsedQuery(Some(key + "=" + value)) == Some(map[key := value])
  {
    var q := key + "=" + value;
    OneSegment(q);
    SegmentOf(key, value);
    PairsSnoc([], q);
    assert [] + [q] == [q];
    assert key in Pairs([q]);
  }

  /** A repeated key keeps its later value. */
  lemma RepeatedKey(key: string, first: string, second: string)
    requires '=' !in key && '&' !in key && '&' !in first && '&' !in second
    ensures ParsedQuery(Some(key + "=" + first + "&" + key + "=" + second)) == Some(map[key := second])
  {
    var a, b := key + "=" + first, key + "=" + second;
    assert a + "&" + b == key + "=" + first + "&" + key + "=" + second;
    TwoSegments(a, b);
    SegmentOf(key, first);
    SegmentOf(key, second);
    PairsSnoc([], a);
    assert [] + [a] == [a];
    PairsSnoc([a], b);
    assert [a] + [b] == [a, b];
    assert map[key := first][key := second] == map[key := second];
    assert key in Pairs([a, b]);
  }

  /** `f"{api_key}"`: an unset key prints as `None`. */
  function KeyText(apiKey: Option<string>): string
  {
    if apiKey.Some? then apiKey.value else "None"
  }

  class TorBoxAPIClient {
    const apiBase: string
    const authorization: string
    const maxRetries: int
    /** The configured key, `None` when the variable is unset. */
    const apiKey: Option<string>

    constructor (apiBase: string, apiVersion: string, apiKey: Option<string>, maxRetries: int)
      ensures this.apiBase == apiBase + "/" + apiVersion + "/api"
      ensures authorization == "Bearer " + KeyText(apiKey)
      ensures this.apiKey == apiKey && this.maxRetries == maxRetries
    {
      this.apiBase := apiBase + "/" + apiVersion + "/api";
      authorization := "Bearer " + KeyText(apiKey);
      this.apiKey := apiKey;
      this.maxRetries := maxRetries;
    }

    /** The key as the value of the `token` parameter. */
    function Token(): (t: Scalar)
      ensures apiKey.Some? ==> t == PyStr(apiKey.value)
      ensures apiKey.None? ==> t == PyNone
    {
      if apiKey.Some? then PyStr(apiKey.value) else PyNone
    }

    /** `_parse_query_string`: the `&`-separated segments that hold `=` are
        split at their first `=` into the dictionary, later keys overwriting
        earlier ones. */
    method ParseQueryString(query: Option<string>) returns (r: Option<map<string, string>>)
      ensures r == ParsedQuery(query)
    {
      var params: map<string, string> := map[];
      if query.Some? && query.value != "" {
        var segments := Split(query.value, '&');
        for i := 0 to |segments|
          invariant params == Pairs(segments[..i])
        {
          var segment := segments[i];
          assert segments[..i + 1][..i] == segments[..i];
          if '=' in segment {
            var j := IndexOf(segment, '=');
            params := params[segment[..j] := segment[j + 1..]];
          }
        }
        assert segments[..|segments|] == segments;
      }
      r := if params != map[] then Some(params) else None;
    }

    /** The query parameters of `request_torrent_download_link` (`idKey` is
        `torrent_id`) and of `request_usenet_download_link` (`usenet_id`). */
    function DownloadLinkParams(idKey: string, id: Scalar, zipLink: bool): (params: map<string, Scalar>)
      requires idKey == "torrent_id" || idKey == "usenet_id"
      ensures params.Keys == {idKey, "zip_link", "token"}
      ensures params[idKey] == id
      ensures params["zip_link"] == PyStr(if zipLink then "true" else "false")
      ensures params["token"] == Token()
    {
      map[idKey := id, "zip_link" := PyStr(if zipLink then "true" else "false"), "token" := Token()]
    }
  }

  /** The `zip_link` parameter is read back as the flag it encodes, and the
      token is the client's API key whatever the job. */
  lemma DownloadLinkFlag(client: TorBoxAPIClient, idKey: string, id: Scalar, zipLink: bool)
    requires idKey == "torrent_id" || idKey == "usenet_id"
    ensures var p := client.DownloadLinkParams(idKey, id, zipLink);
            && (p["zip_link"] == PyStr("true") <==> zipLink)
            && Truthy(p["zip_link"])
            && p["token"] == client.DownloadLinkParams("torrent_id", PyNone, false)["token"]
  {
  }
}

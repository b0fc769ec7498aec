/** The request URLs the viewer sends: the instance URL with its trailing
    `/` characters stripped, joined with `/` to fixed path segments. */
module Endpoints {
  import Text

  const ApiVersion := "v51.0"

  /** `url.rstrip("/")`: the base kept in the session after login. */
  function NormalizeBase(url: string): (base: string)
    ensures base <= url
    ensures |base| == 0 || base[|base| - 1] != '/'
    ensures forall i :: |base| <= i < |url| ==> url[i] == '/'
  {
    Text.RStrip(url, '/')
  }

  /** `'/'.join(segments)`. */
  function JoinPath(segments: seq<string>): string
  {
    Text.Join(segments, "/")
  }

  /** The OAuth token endpoint used by `login`, built from the URL as typed. */
  function TokenUrl(url: string): (r: string)
    ensures r == NormalizeBase(url) + "/services/oauth2/token"
  {
    var base := NormalizeBase(url);
    JoinPathOf(base, ["services", "oauth2", "token"]);
    JoinPath([base, "services", "oauth2", "token"])
  }

  /** The object listing used by `load_objects`. */
  function SobjectsUrl(base: string): (r: string)
    ensures r == base + "/services/data/v51.0/sobjects"
  {
    JoinPathOf(base, ["services", "data", ApiVersion, "sobjects"]);
    assert Slashed(["sobjects"]) == "/sobjects";
    assert Slashed([ApiVersion, "sobjects"]) == "/v51.0/sobjects";
    JoinPath([base, "services", "data", ApiVersion, "sobjects"])
  }

  /** The describe call for one object used by `show_object`. */
  function DescribeUrl(base: string, objectName: string): (r: string)
    ensures r == base + "/services/data/v51.0/sobjects/" + objectName + "/describe"
  {
    JoinPathOf(base, ["services", "data", ApiVersion, "sobjects", objectName, "describe"]);
    DescribeSuffix(objectName);
    JoinPath([base, "services", "data", ApiVersion, "sobjects", objectName, "describe"])
  }

  /** The tooling API call carrying the validation-rule query. */
  function ToolingUrl(base: string, query: string): (r: string)
    ensures r == base + "/services/data/v51.0/tooling/" + query
  {
    JoinPathOf(base, ["services", "data", ApiVersion, "tooling", query]);
    ToolingSuffix(query);
    JoinPath([base, "services", "data", ApiVersion, "tooling", query])
  }

  /** The OAuth revoke endpoint used by `logout`. */
  function RevokeUrl(base: string): (r: string)
    ensures r == base + "/services/oauth2/revoke"
  {
    JoinPathOf(base, ["services", "oauth2", "revoke"]);
    JoinPath([base, "services", "oauth2", "revoke"])
  }

  lemma ToolingSuffix(query: string)
    ensures Slashed(["services", "data", ApiVersion, "tooling", query]) == "/services/data/v51.0/tooling/" + query
  {
    ToolingSuffixQuery(query);
  }

  lemma ToolingSuffixQuery(query: string)
    ensures Slashed(["data", ApiVersion, "tooling", query]) == "/data/v51.0/tooling/" + query
  {
    assert Slashed([query]) == "/" + query;
    assert Slashed(["tooling", query]) == "/tooling/" + query;
  }

  lemma DescribeSuffix(objectName: string)
    ensures Slashed(["services", "data", ApiVersion, "sobjects", objectName, "describe"])
         == "/services/data/v51.0/sobjects/" + objectName + "/describe"
  {
    DescribeSuffixFrom(objectName);
  }

  lemma DescribeSuffixFrom(objectName: string)
    ensures Slashed(["data", ApiVersion, "sobjects", objectName, "describe"])
         == "/data/v51.0/sobjects/" + objectName + "/describe"
  {
    DescribeSuffixName(objectName);
  }

  lemma DescribeSuffixName(objectName: string)
    ensures Slashed(["sobjects", objectName, "describe"]) == "/sobjects/" + objectName + "/describe"
  {
    assert Slashed(["describe"]) == "/describe";
    assert Slashed([objectName, "describe"]) == "/" + objectName + "/describe";
  }

  /** Joining a base in front of segments: the base, `/`, then the segments
      joined. */
  lemma JoinPathCons(base: string, segments: seq<string>)
    requires |segments| > 0
    ensures JoinPath([base] + segments) == base + "/" + JoinPath(segments)
  {
    assert ([base] + segments)[1..] == segments;
  }

  /** The segments joined, written out one `/` at a time. */
  function Slashed(segments: seq<string>): string
  {
    if |segments| == 0 then "" else "/" + segments[0] + Slashed(segments[1..])
  }

  lemma {:induction false} JoinPathOf(base: string, segments: seq<string>)
    ensures JoinPath([base] + segments) == base + Slashed(segments)
    decreases segments
  {
    if |segments| == 0 {
      assert [base] + segments == [base];
    } else {
      JoinPathCons(base, segments);
      JoinPathOf(segments[0], segments[1..]);
      assert [segments[0]] + segments[1..] == segments;
    }
  }

  // ---------------------------------------------------------------------
  // Properties

  /** The user may type the instance URL with or without trailing slashes:
      the session base and every URL built from it are the same, and the
      base is already normalised. */
  lemma TrailingSlashIgnored(url: string)
    ensures NormalizeBase(url + "/") == NormalizeBase(url)
    ensures NormalizeBase(NormalizeBase(url)) == NormalizeBase(url)
    ensures TokenUrl(url + "/") == TokenUrl(url)
  {
    Text.RStripTrailing(url, '/');
  }

  /** Splitting a URL built from a base on `/` gives the base's own pieces
      followed by the fixed segments, as long as no segment holds `/`. */
  lemma PathSegments(base: string, segments: seq<string>)
    requires |segments| > 0
    requires forall k :: 0 <= k < |segments| ==> '/' !in segments[k]
    ensures Text.Split(JoinPath([base] + segments), '/') == Text.Split(base, '/') + segments
  {
    JoinPathCons(base, segments);
    Text.SplitAround(base, '/', JoinPath(segments));
    Text.SplitJoin(segments, '/');
  }

  /** The describe URL names the object as exactly one path segment when the
      name holds no `/`, so the object name can be read back from it. */
  lemma DescribeSegments(base: string, objectName: string)
    requires '/' !in objectName
    ensures Text.Split(DescribeUrl(base, objectName), '/') ==
      Text.Split(base, '/') + ["services", "data", ApiVersion, "sobjects", objectName, "describe"]
  {
    var segments := ["services", "data", ApiVersion, "sobjects", objectName, "describe"];
    PathSegments(base, segments);
    JoinPathOf(base, segments);
  }
}

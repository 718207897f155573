/** How the Google translator builds the request: the endpoint, the ordered query
    parameters of the URL, and the form body. */
module GoogleRequest {
  import opened Languages

  /** One `name=value` pair, of the URL query or of the request body. */
  datatype Param = Param(name: string, value: string)

  /** The two URL templates: documentation translation or general translation. */
  datatype Endpoint = DocumentationEndpoint | TranslateEndpoint

  /** A request URL: the chosen endpoint and its query parameters in the order they are added. */
  datatype RequestUrl = RequestUrl(endpoint: Endpoint, query: seq<Param>)

  /** The parameter names in query order. */
  function Names(params: seq<Param>): seq<string> {
    seq(|params|, i requires 0 <= i < |params| => params[i].name)
  }

  /** Parameters that depend on the mode, added between `tl` and `tk`. */
  function ModeParams(forDocumentation: bool, primary: Lang): (r: seq<Param>)
    ensures forall i :: 0 <= i < |r| ==> r[i].name != "sl" && r[i].name != "tl" && r[i].name != "tk"
    ensures |r| > 0 && r[0].name == "client"
    ensures r[0].value == if forDocumentation then "te_lib" else "gtx"
    ensures Param("format", "html") in r <==> forDocumentation
    ensures Param("hl", primary.code) in r <==> !forDocumentation
  {
    if forDocumentation then
      [Param("client", "te_lib"), Param("format", "html")]
    else
      [Param("client", "gtx"),
       Param("dt", "t"), Param("dt", "bd"), Param("dt", "rm"), Param("dt", "qca"),
       Param("dj", "1"), Param("ie", "UTF-8"), Param("oe", "UTF-8"),
       Param("hl", primary.code)]
  }

  /** `getRequestUrl`. The host formatting and percent-encoding of the URL builder are not
      modelled; `tk` is the request token, a function of the text alone, and `primary` is the
      configured primary language. */
  function RequestUrlFor(text: string, srcLang: Lang, targetLang: Lang, forDocumentation: bool,
                         primary: Lang, tk: string -> string): (u: RequestUrl)
    ensures u.endpoint == if forDocumentation then DocumentationEndpoint else TranslateEndpoint
    ensures |u.query| >= 3
    ensures u.query[0] == Param("sl", srcLang.code) && u.query[1] == Param("tl", targetLang.code)
    ensures u.query[|u.query| - 1] == Param("tk", tk(text))
    ensures forall i :: 0 <= i < |u.query| - 1 ==> u.query[i].name != "tk"
    ensures forall i :: 2 <= i < |u.query| ==> u.query[i].name != "sl" && u.query[i].name != "tl"
  {
    var endpoint := if forDocumentation then DocumentationEndpoint else TranslateEndpoint;
    RequestUrl(endpoint,
      [Param("sl", srcLang.code), Param("tl", targetLang.code)]
      + ModeParams(forDocumentation, primary)
      + [Param("tk", tk(text))])
  }

  /** `getRequestParams`: the form body. */
  function RequestParams(text: string, srcLang: Lang, targetLang: Lang, forDocumentation: bool): (r: seq<Param>)
    ensures |r| == 1 && r[0].name == "q" && r[0].value == text
  {
    [Param("q", text)]
  }

  /** The token is the same for every request on the same text, whatever the languages,
      mode or primary language. */
  lemma TokenDependsOnTextOnly(text: string, tk: string -> string,
                               src1: Lang, tgt1: Lang, doc1: bool, primary1: Lang,
                               src2: Lang, tgt2: Lang, doc2: bool, primary2: Lang)
    ensures var q1 := RequestUrlFor(text, src1, tgt1, doc1, primary1, tk).query;
            var q2 := RequestUrlFor(text, src2, tgt2, doc2, primary2, tk).query;
      q1[|q1| - 1] == q2[|q2| - 1]
  {
  }

  /** Documentation mode: the query is `sl, tl, client=te_lib, format=html, tk`. */
  lemma DocumentationQuery(text: string, srcLang: Lang, targetLang: Lang, primary: Lang, tk: string -> string)
    ensures var q := RequestUrlFor(text, srcLang, targetLang, true, primary, tk).query;
      && Names(q) == ["sl", "tl", "client", "format", "tk"]
      && q[2].value == "te_lib" && q[3].value == "html"
  {
  }

  /** General mode: after `sl` and `tl` come `client=gtx`, the four detail flags
      `dt=t, bd, rm, qca`, `dj=1`, `ie=UTF-8`, `oe=UTF-8` and `hl` set to the primary
      language, then `tk`; there is no `format`. */
  lemma GeneralQuery(text: string, srcLang: Lang, targetLang: Lang, primary: Lang, tk: string -> string)
    ensures var q := RequestUrlFor(text, srcLang, targetLang, false, primary, tk).query;
      && Names(q) == ["sl", "tl", "client", "dt", "dt", "dt", "dt", "dj", "ie", "oe", "hl", "tk"]
      && q[2].value == "gtx"
      && q[3].value == "t" && q[4].value == "bd" && q[5].value == "rm" && q[6].value == "qca"
      && q[7].value == "1" && q[8].value == "UTF-8" && q[9].value == "UTF-8"
      && q[10].value == primary.code
      && "format" !in Names(q)
  {
  }

  /** The body is the single pair `q = text`, whatever the languages and the mode. */
  lemma RequestParamsOnlyText(text: string, src1: Lang, tgt1: Lang, doc1: bool,
                              src2: Lang, tgt2: Lang, doc2: bool)
    ensures RequestParams(text, src1, tgt1, doc1) == RequestParams(text, src2, tgt2, doc2)
    ensures RequestParams(text, src1, tgt1, doc1) == [Param("q", text)]
  {
  }
}

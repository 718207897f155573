/** How the Google translator decodes responses: the nested-array documentation format,
    the source-language rule, `parserResult`, and the sentence dispatcher of general mode. */
module GoogleResponse {
  import opened Results
  import opened JsonTree
  import opened Languages

  /** Why a response could not be decoded (the exception Gson or the decoder throws). */
  datatype ParseError =
    | NotAnArray               // `asJsonArray` on something else
    | EmptyArray               // `first()` on an empty array
    | NotAString(elem: Json)   // `asString` on a null, an object or an array not of size one
    | NotAnObject(elem: Json)  // `asJsonObject` on something else
    | UnknownSentence(elem: Json)
    | GeneralDecodeFailed      // failure inside the general-mode reflection decoder

  /** The documentation-mode payload: translated text and the detected language, if any. */
  datatype DocTranslation = DocTranslation(translatedText: string, lang: Option<Lang>)

  /** A sentence entry of a general-mode response; the variant carries the entry's members. */
  datatype Sentence = TransSentence(members: map<string, Json>) | TranslitSentence(members: map<string, Json>)

  /** The general-mode payload after `parserResult` stamps it; the other fields Gson binds by
      reflection are represented only by the decoded sentences. */
  datatype GoogleTranslation = GoogleTranslation(original: Option<string>, target: Option<Lang>, sentences: seq<Sentence>)

  /** What `parserResult` returns. */
  datatype Translation =
    | BaseTranslation(srcLang: Lang, targetLang: Lang, translation: string)
    | General(payload: GoogleTranslation)

  /** An array where the descent stops: non-empty, and its first element is not an array. */
  predicate Terminal(a: seq<Json>) {
    |a| > 0 && !a[0].JArray?
  }

  // ---------------------------------------------------------------------------
  // The nested-array decoder (`GDocTranslationDeserializer`)
  // ---------------------------------------------------------------------------

  /** The array reached after following element 0 down `n` times, if every level on the way
      starts with an array. This is the reference the descent is checked against. */
  ghost function Dive(a: seq<Json>, n: nat): Option<seq<Json>>
    decreases n
  {
    if n == 0 then Some(a)
    else if |a| > 0 && a[0].JArray? then Dive(a[0].elems, n - 1)
    else None
  }

  /** The `while (true)` loop: follow element 0 while it is an array. */
  function Descend(a: seq<Json>): (r: Result<seq<Json>, ParseError>)
    ensures r.Success? ==> Terminal(r.value)
    ensures r.Failure? ==> r.error == EmptyArray
    decreases a
  {
    if |a| == 0 then Failure(EmptyArray)
    else if a[0].JArray? then
      assert a[0] in a;
      Descend(a[0].elems)
    else Success(a)
  }

  /** `GDocTranslationDeserializer.deserialize`. `valueOfCode` is `Lang.valueOfCode`. */
  function DecodeDocTranslation(json: Json, valueOfCode: string -> Lang): (r: Result<DocTranslation, ParseError>)
    ensures !json.JArray? ==> r == Failure(NotAnArray)
    ensures r.Success? ==> json.JArray? && Descend(json.elems).Success?
  {
    if !json.JArray? then Failure(NotAnArray)
    else
      var t :- Descend(json.elems);
      match AsString(t[0])
      case None => Failure(NotAString(t[0]))
      case Some(text) =>
        if |t| > 1 then
          match AsString(t[1])
          case None => Failure(NotAString(t[1]))
          case Some(code) => Success(DocTranslation(text, Some(valueOfCode(code))))
        else Success(DocTranslation(text, None))
  }

  /** The descent finds the terminal array on the element-0 path. */
  lemma {:induction false} DescendFindsTerminal(a: seq<Json>, n: nat, t: seq<Json>)
    requires Dive(a, n) == Some(t) && Terminal(t)
    ensures Descend(a) == Success(t)
    decreases n
  {
    if n > 0 {
      DescendFindsTerminal(a[0].elems, n - 1, t);
    }
  }

  /** An empty array anywhere on the element-0 path is a parse failure. */
  lemma {:induction false} DescendFailsOnEmpty(a: seq<Json>, n: nat)
    requires Dive(a, n) == Some([])
    ensures Descend(a) == Failure(EmptyArray)
    decreases n
  {
    if n > 0 {
      DescendFailsOnEmpty(a[0].elems, n - 1);
    }
  }

  /** Conversely, whatever the descent returns lies on the element-0 path. */
  lemma {:induction false} DescendFollowsPath(a: seq<Json>)
    ensures Descend(a).Success? ==> exists n :: Dive(a, n) == Some(Descend(a).value)
    ensures Descend(a).Failure? ==> exists n :: Dive(a, n) == Some([])
    decreases a
  {
    if |a| == 0 {
      assert Dive(a, 0) == Some([]);
    } else if a[0].JArray? {
      assert a[0] in a;
      DescendFollowsPath(a[0].elems);
      if Descend(a).Success? {
        var n: nat :| Dive(a[0].elems, n) == Some(Descend(a).value);
        assert Dive(a, n + 1) == Some(Descend(a).value);
      } else {
        var n: nat :| Dive(a[0].elems, n) == Some([]);
        assert Dive(a, n + 1) == Some([]);
      }
    } else {
      assert Dive(a, 0) == Some(a);
    }
  }

  /** The documentation decoder on a response whose element-0 path ends in terminal array
      `t`: it succeeds exactly when element 0 (and element 1, if present) read as strings;
      the text is element 0; a language is detected exactly when `t` has more than one
      element, and it is the language whose code is element 1. */
  lemma {:induction false} DecodeDocTranslationSpec(a: seq<Json>, n: nat, t: seq<Json>, valueOfCode: string -> Lang)
    requires Dive(a, n) == Some(t) && Terminal(t)
    ensures var r := DecodeDocTranslation(JArray(a), valueOfCode);
      && (r.Success? <==> AsString(t[0]).Some? && (|t| > 1 ==> AsString(t[1]).Some?))
      && (r.Success? ==> r.value.translatedText == AsString(t[0]).value)
      && (r.Success? ==> (r.value.lang.Some? <==> |t| > 1))
      && (r.Success? && |t| > 1 ==> r.value.lang == Some(valueOfCode(AsString(t[1]).value)))
  {
    DescendFindsTerminal(a, n, t);
  }

  /** An empty array anywhere on the element-0 path fails the whole decode. */
  lemma {:induction false} DecodeDocTranslationEmpty(a: seq<Json>, n: nat, valueOfCode: string -> Lang)
    requires Dive(a, n) == Some([])
    ensures DecodeDocTranslation(JArray(a), valueOfCode) == Failure(EmptyArray)
  {
    DescendFailsOnEmpty(a, n);
  }

  /** `[[["hello world"]]]` decodes to the text with no detected language. */
  lemma HelloWorldExample(valueOfCode: string -> Lang)
    ensures DecodeDocTranslation(JArray([JArray([JArray([JString("hello world")])])]), valueOfCode)
         == Success(DocTranslation("hello world", None))
  {
    var a := [JArray([JArray([JString("hello world")])])];
    assert Dive(a, 2) == Some([JString("hello world")]);
    DescendFindsTerminal(a, 2, [JString("hello world")]);
  }

  /** `[["hola","es"]]` decodes to `hola`, detected as the language whose code is `es`. */
  lemma DetectedLanguageExample(valueOfCode: string -> Lang)
    ensures DecodeDocTranslation(JArray([JArray([JString("hola"), JString("es")])]), valueOfCode)
         == Success(DocTranslation("hola", Some(valueOfCode("es"))))
  {
    var a := [JArray([JString("hola"), JString("es")])];
    assert Dive(a, 1) == Some([JString("hola"), JString("es")]);
    DescendFindsTerminal(a, 1, [JString("hola"), JString("es")]);
  }

  // ---------------------------------------------------------------------------
  // The source-language rule and `parserResult`
  // ---------------------------------------------------------------------------

  /** `lang?.takeIf { srcLang == Lang.AUTO } ?: srcLang`. */
  function ResolveSourceLang(srcLang: Lang, detected: Option<Lang>): (l: Lang)
    ensures srcLang.name == Auto && detected.Some? ==> l == detected.value
    ensures srcLang.name != Auto ==> l == srcLang
    ensures detected.None? ==> l == srcLang
  {
    match detected
    case Some(d) => if srcLang.name == Auto then d else srcLang
    case None => srcLang
  }

  /** The target language a parsed translation carries. */
  function TargetOf(t: Translation): Option<Lang> {
    match t
    case BaseTranslation(_, target, _) => Some(target)
    case General(g) => g.target
  }

  /** `parserResult`. `decodeGeneral` is Gson's reflection decode of a general-mode response;
      the conversion `toTranslation` that follows it is not modelled. */
  function ParserResult(original: string, srcLang: Lang, targetLang: Lang, result: Json,
                        forDocumentation: bool, valueOfCode: string -> Lang,
                        decodeGeneral: Json -> Result<GoogleTranslation, ParseError>): (r: Result<Translation, ParseError>)
    ensures r.Success? ==> TargetOf(r.value) == Some(targetLang)
    ensures forDocumentation ==> (r.Success? <==> DecodeDocTranslation(result, valueOfCode).Success?)
    ensures !forDocumentation ==> (r.Success? <==> decodeGeneral(result).Success?)
    ensures r.Success? ==> (r.value.BaseTranslation? <==> forDocumentation)
    ensures r.Success? && forDocumentation ==>
      r.value.translation == DecodeDocTranslation(result, valueOfCode).value.translatedText
    ensures r.Success? && !forDocumentation ==>
      r.value.payload.original == Some(original)
      && r.value.payload.sentences == decodeGeneral(result).value.sentences
  {
    if forDocumentation then
      var doc :- DecodeDocTranslation(result, valueOfCode);
      Success(BaseTranslation(ResolveSourceLang(srcLang, doc.lang), targetLang, doc.translatedText))
    else
      var g :- decodeGeneral(result);
      Success(General(g.(original := Some(original), target := Some(targetLang))))
  }

  /** Documentation mode, end to end: the source language of the result is the detected one
      exactly when the caller asked for AUTO and the terminal array has a second element;
      otherwise it is the caller's, even when the response names another language. */
  lemma {:induction false} DocumentationSourceLanguage(original: string, srcLang: Lang, targetLang: Lang, a: seq<Json>,
                                    n: nat, t: seq<Json>, valueOfCode: string -> Lang,
                                    decodeGeneral: Json -> Result<GoogleTranslation, ParseError>)
    requires Dive(a, n) == Some(t) && Terminal(t)
    ensures var r := ParserResult(original, srcLang, targetLang, JArray(a), true, valueOfCode, decodeGeneral);
      && (r.Success? ==> r.value.targetLang == targetLang)
      && (r.Success? && srcLang.name == Auto && |t| > 1 ==>
            AsString(t[1]).Some? && r.value.srcLang == valueOfCode(AsString(t[1]).value))
      && (r.Success? && (srcLang.name != Auto || |t| <= 1) ==> r.value.srcLang == srcLang)
  {
    DecodeDocTranslationSpec(a, n, t, valueOfCode);
  }

  /** With AUTO requested and no language in the response, the result keeps AUTO as its
      source language: nothing resolves it. */
  lemma AutoKeptWhenNothingDetected(original: string, auto: Lang, targetLang: Lang, text: string,
                                    valueOfCode: string -> Lang,
                                    decodeGeneral: Json -> Result<GoogleTranslation, ParseError>)
    requires auto.name == Auto
    ensures ParserResult(original, auto, targetLang, JArray([JArray([JString(text)])]), true, valueOfCode, decodeGeneral)
         == Success(BaseTranslation(auto, targetLang, text))
  {
    var a := [JArray([JString(text)])];
    assert Dive(a, 1) == Some([JString(text)]);
    DescendFindsTerminal(a, 1, [JString(text)]);
  }

  // ---------------------------------------------------------------------------
  // The sentence dispatcher (`GSentenceDeserializer`)
  // ---------------------------------------------------------------------------

  /** The members that make a translation-pair sentence. */
  predicate HasTransPair(members: map<string, Json>) {
    "orig" in members && "trans" in members
  }

  /** The members that make a transliteration sentence. */
  predicate HasTranslit(members: map<string, Json>) {
    "translit" in members || "src_translit" in members
  }

  /** `GSentenceDeserializer.deserialize`: the variant is chosen by which members are present;
      an entry matching neither shape fails rather than being dropped. */
  function DecodeSentence(j: Json): (r: Result<Sentence, ParseError>)
    ensures r.Success? ==> j.JObject? && r.value.members == j.members
    ensures r.Success? && r.value.TransSentence? <==> j.JObject? && HasTransPair(j.members)
    ensures r.Success? && r.value.TranslitSentence? <==>
      j.JObject? && !HasTransPair(j.members) && HasTranslit(j.members)
    ensures !j.JObject? ==> r == Failure(NotAnObject(j))
    ensures j.JObject? && !HasTransPair(j.members) && !HasTranslit(j.members) ==> r == Failure(UnknownSentence(j))
  {
    if !j.JObject? then Failure(NotAnObject(j))
    else if HasTransPair(j.members) then Success(TransSentence(j.members))
    else if HasTranslit(j.members) then Success(TranslitSentence(j.members))
    else Failure(UnknownSentence(j))
  }
}

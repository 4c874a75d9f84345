/**
  OpenAICodeAnalyzer.cs: builds the prompt and the chat request for one file,
  checks the HTTP status, takes the reply's message content, cuts the JSON
  object out of it and maps that object onto a `CodeAnalysisResult`, falling
  back to a single "Analysis Error" suggestion.

  The HTTP round trip and the two JSON deserialisations are collaborators
  (`Service`). The loosely typed JSON of the source is an explicit schema
  whose every field is optional.
*/
module OpenAIAnalyzer {
  import opened Wrappers
  import opened Text
  import opened Models

  datatype ChatMessage = ChatMessage(role: string, content: string)

  /** The body posted to the chat-completions endpoint. */
  datatype ChatRequest = ChatRequest(
    model: string, messages: seq<ChatMessage>, maxTokens: int, temperature: real)

  /** The response: whether the status is 2xx, the status name and the body. */
  datatype HttpResponse = HttpResponse(isSuccessStatusCode: bool, statusCode: string, body: string)

  /** One element of the reply's "suggestions" array; `None` is an absent
      field. An explicit JSON `null` is not told apart from an absent field
      here, although the deserialiser turns it into a null string that `??`
      does not replace. */
  datatype SuggestionJson = SuggestionJson(
    suggestionType: Option<string>,
    description: Option<string>,
    lineNumber: Option<string>,
    severity: Option<string>,
    before: Option<string>,
    after: Option<string>)

  /** The reply's JSON object. An empty candidate deserialises to `null`,
      whose `?.` accesses all give `null`: an object with no fields. */
  datatype AnalysisJson = AnalysisJson(
    optimizedCode: Option<string>, suggestions: Option<seq<SuggestionJson>>)

  /** The analyser's collaborators.
      - `post`: sends the request and reads the response body; `Failure` when
        the transport throws.
      - `messageContent`: deserialises a response body and takes
        `choices[0].message.content`; `Failure` when that throws, `None` when
        the content is missing.
      - `parseJson`: deserialises the JSON cut out of the reply; `None` when
        it throws (malformed text, fields of the wrong shape). */
  datatype Service = Service(
    post: ChatRequest -> Result<HttpResponse>,
    messageContent: string -> Result<Option<string>>,
    parseJson: string -> Option<AnalysisJson>)

  const Model: string := "gpt-3.5-turbo"
  const MaxTokens: int := 2000
  const Temperature: real := 0.3
  const SystemPrompt: string :=
    "You are an expert C# code optimizer specializing in memory optimization. Analyze the provided code and suggest memory optimizations."

  /** The instructions that precede the code. */
  const PromptIntro: string := @"
Please analyze the following C# code for memory optimization opportunities and provide a JSON response with the following structure:

{
  ""suggestions"": [
    {
      ""type"": ""Memory Optimization Type"",
      ""description"": ""Detailed description of the optimization"",
      ""lineNumber"": ""Line number or range"",
      ""severity"": ""High/Medium/Low"",
      ""before"": ""Original code snippet"",
      ""after"": ""Optimized code snippet""
    }
  ],
  ""optimizedCode"": ""Complete optimized version of the code"",
  ""optimizationSummary"": ""Summary of all optimizations made""
}

Focus on these memory optimization areas:
1. String concatenation optimization (StringBuilder, string interpolation)
2. Collection initialization and capacity management
3. Unnecessary object allocations
4. Proper disposal of resources (using statements)
5. Boxing/unboxing elimination
6. Lazy initialization where appropriate
7. Value types vs reference types optimization
8. Memory-efficient LINQ operations
9. Async/await memory patterns
10. Cache-friendly data structures

Code to analyze:
"

  /** The closing request that follows the code. */
  const PromptOutro: string := @"

Provide practical, implementable suggestions with clear before/after examples.
"

  const OpeningFence: string := "```csharp\n"
  const ClosingFence: string := "\n```"

  /** The prompt text up to and including the line that opens the code fence. */
  const PromptHead: string := PromptIntro + OpeningFence

  /** The prompt text from the line break that ends the code onwards. */
  const PromptTail: string := ClosingFence + PromptOutro

  /** `CreateAnalysisPrompt(code)`: the submitted code, verbatim, between the
      line opening a C# fence and a line closing it. */
  function CreateAnalysisPrompt(code: string): (r: string)
    ensures |r| == |PromptHead| + |code| + |PromptTail|
    ensures r[..|PromptHead|] == PromptHead && r[|PromptHead|..|PromptHead| + |code|] == code
    ensures r[|PromptHead| + |code|..] == PromptTail
  {
    PromptHead + code + PromptTail
  }

  /** The fixed head ends with the line opening a C# fence, and the fixed
      tail starts by closing it on a line of its own. */
  lemma PromptFences()
    ensures |OpeningFence| <= |PromptHead| && PromptHead[|PromptHead| - |OpeningFence|..] == OpeningFence
    ensures |ClosingFence| <= |PromptTail| && PromptTail[..|ClosingFence|] == ClosingFence
  {
    assert PromptHead[|PromptIntro|..] == OpeningFence;
  }

  /** The code a prompt carries, if it has the prompt's shape. */
  function SubmittedCode(prompt: string): Option<string> {
    if |prompt| >= |PromptHead| + |PromptTail|
       && prompt[..|PromptHead|] == PromptHead
       && prompt[|prompt| - |PromptTail|..] == PromptTail
    then Some(prompt[|PromptHead|..|prompt| - |PromptTail|])
    else None
  }

  /** The code can be read back out of the prompt unchanged. */
  lemma PromptRoundTrip(code: string)
    ensures SubmittedCode(CreateAnalysisPrompt(code)) == Some(code)
  {
    var p := CreateAnalysisPrompt(code);
    assert p[|p| - |PromptTail|..] == PromptTail;
  }

  /** The request body: the fixed model, system message, token limit and
      temperature, and the prompt as the user message. */
  function BuildRequest(prompt: string): (r: ChatRequest)
    ensures r.model == Model && r.maxTokens == MaxTokens && r.temperature == Temperature
    ensures r.messages == [ChatMessage("system", SystemPrompt), ChatMessage("user", prompt)]
  {
    ChatRequest(Model, [ChatMessage("system", SystemPrompt), ChatMessage("user", prompt)], MaxTokens, Temperature)
  }

  /** What `Substring(first '{', last '}' - first '{' + 1)` makes of a reply. */
  datatype JsonSlice =
    | NoBraces              // no '{' or no '}': the parse is skipped
    | NegativeLength        // `Substring` throws
    | Candidate(json: string)

  predicate BracesApart(response: string) {
    forall i, j :: 0 <= i < |response| && 0 <= j < |response| && response[i] == '{' && response[j] == '}' ==> j < i - 1
  }

  /** The JSON candidate: from the first '{' to the last '}', both included.
      When the last '}' sits right before the first '{' the length is zero
      and the candidate is empty; only a '}' further left makes `Substring`
      throw. */
  function JsonCandidate(response: string): (r: JsonSlice)
    ensures r.NoBraces? <==> '{' !in response || '}' !in response
    ensures r.NegativeLength? <==> '{' in response && '}' in response && BracesApart(response)
    ensures r.Candidate? ==>
      var i := IndexOf(response, '{');
      && 0 <= i && i + |r.json| <= |response| && r.json == response[i..i + |r.json|]
      && (forall k :: 0 <= k < i ==> response[k] != '{')
      && (forall k :: i + |r.json| <= k < |response| ==> response[k] != '}')
      && (r.json != [] ==> r.json[0] == '{' && r.json[|r.json| - 1] == '}')
      && (r.json == [] ==> response[i - 1] == '}')
  {
    var startIndex := IndexOf(response, '{');
    var endIndex := LastIndexOf(response, '}');
    if startIndex >= 0 && endIndex >= 0 then
      if endIndex - startIndex + 1 < 0 then NegativeLength
      else Candidate(response[startIndex..endIndex + 1])
    else NoBraces
  }

  /** The result when nothing usable came back. */
  function Fallback(file: CodeFile): (r: CodeAnalysisResult)
    ensures r.originalCode == file.content && r.optimizedCode == file.content
    ensures r.originalFilePath == file.filePath
    ensures |r.suggestions| == 1
    ensures r.suggestions[0].suggestionType == "Analysis Error" && r.suggestions[0].severity == "High"
  {
    CodeAnalysisResult(
      originalCode := file.content,
      optimizedCode := file.content,
      originalFilePath := file.filePath,
      suggestions := [Suggestion(
        suggestionType := "Analysis Error",
        description := "Failed to parse OpenAI response. Please check the API response format.",
        severity := "High")])
  }

  /** One JSON suggestion; an absent field becomes "". */
  function ToSuggestion(j: SuggestionJson): Suggestion {
    Suggestion(
      j.suggestionType.GetOr(""), j.description.GetOr(""), j.lineNumber.GetOr(""),
      j.severity.GetOr(""), j.before.GetOr(""), j.after.GetOr(""))
  }

  /** The parsed suggestions, one for one and in order; every absent field
      becomes "". */
  function ToSuggestions(items: seq<SuggestionJson>): (r: seq<Suggestion>)
    ensures |r| == |items|
    ensures forall i :: 0 <= i < |r| ==>
      && r[i].suggestionType == items[i].suggestionType.GetOr("")
      && r[i].description == items[i].description.GetOr("")
      && r[i].lineNumber == items[i].lineNumber.GetOr("")
      && r[i].severity == items[i].severity.GetOr("")
      && r[i].before == items[i].before.GetOr("")
      && r[i].after == items[i].after.GetOr("")
  {
    seq(|items|, i requires 0 <= i < |items| => ToSuggestion(items[i]))
  }

  /** The result built from a parsed reply. */
  function FromJson(file: CodeFile, data: AnalysisJson): CodeAnalysisResult {
    CodeAnalysisResult(
      originalCode := file.content,
      optimizedCode := data.optimizedCode.GetOr(file.content),
      originalFilePath := file.filePath,
      suggestions := ToSuggestions(data.suggestions.GetOr([])))
  }

  /** Specification of `ParseAnalysisResponse`. */
  function ParsedResponse(file: CodeFile, response: string, parseJson: string -> Option<AnalysisJson>)
    : CodeAnalysisResult
  {
    match JsonCandidate(response)
    case Candidate(json) =>
      (match parseJson(json)
       case Some(data) => FromJson(file, data)
       case None => Fallback(file))
    case _ => Fallback(file)
  }

  /** `ParseAnalysisResponse`: cuts out the JSON, maps its fields and copies
      its suggestions one by one; every failure on the way falls back. */
  method ParseAnalysisResponse(file: CodeFile, response: string, parseJson: string -> Option<AnalysisJson>)
    returns (r: CodeAnalysisResult)
    ensures r == ParsedResponse(file, response, parseJson)
  {
    var startIndex := IndexOf(response, '{');
    var endIndex := LastIndexOf(response, '}');
    if startIndex >= 0 && endIndex >= 0 && endIndex - startIndex + 1 >= 0 {
      var jsonContent := response[startIndex..endIndex + 1];
      var analysisData := parseJson(jsonContent);
      if analysisData.Some? {
        var data := analysisData.value;
        r := CodeAnalysisResult(
          originalCode := file.content,
          optimizedCode := data.optimizedCode.GetOr(file.content),
          originalFilePath := file.filePath,
          suggestions := []);
        if data.suggestions.Some? {
          var copied := CopySuggestions(data.suggestions.value);
          r := r.(suggestions := copied);
        }
        return;
      }
    }
    r := Fallback(file);
  }

  /** The `foreach` that adds the parsed suggestions one by one, in order. */
  method CopySuggestions(items: seq<SuggestionJson>) returns (suggestions: seq<Suggestion>)
    ensures suggestions == ToSuggestions(items)
  {
    suggestions := [];
    var i := 0;
    while i < |items|
      invariant 0 <= i <= |items|
      invariant suggestions == ToSuggestions(items[..i])
    {
      suggestions := suggestions + [ToSuggestion(items[i])];
      i := i + 1;
    }
    assert items[..i] == items;
  }

  /** A reply without a '{' or without a '}' falls back, keeping the file's
      path and content and reporting one "Analysis Error" of severity "High". */
  lemma NoBracesFallsBack(file: CodeFile, response: string, parseJson: string -> Option<AnalysisJson>)
    requires '{' !in response || '}' !in response
    ensures ParsedResponse(file, response, parseJson) == Fallback(file)
  {
  }

  /** A reply whose every '}' lies more than one place before every '{', or
      whose JSON does not deserialise, falls back too. */
  lemma BadJsonFallsBack(file: CodeFile, response: string, parseJson: string -> Option<AnalysisJson>)
    requires JsonCandidate(response).NegativeLength?
      || (JsonCandidate(response).Candidate? && parseJson(JsonCandidate(response).json).None?)
    ensures ParsedResponse(file, response, parseJson) == Fallback(file)
  {
  }

  /** On a successful parse the original code and path are the file's, the
      optimised code is the reply's or else the original, and the suggestions
      are the reply's, one for one and in order, absent fields read as "". */
  lemma ParsedFieldsMapped(file: CodeFile, response: string, parseJson: string -> Option<AnalysisJson>)
    requires JsonCandidate(response).Candidate?
    requires parseJson(JsonCandidate(response).json).Some?
    ensures var data := parseJson(JsonCandidate(response).json).value;
      var r := ParsedResponse(file, response, parseJson);
      && r.originalCode == file.content && r.originalFilePath == file.filePath
      && r.optimizedCode == (if data.optimizedCode.Some? then data.optimizedCode.value else file.content)
      && |r.suggestions| == (if data.suggestions.Some? then |data.suggestions.value| else 0)
      && forall i :: 0 <= i < |r.suggestions| ==>
           var item := data.suggestions.value[i];
           && r.suggestions[i].suggestionType == item.suggestionType.GetOr("")
           && r.suggestions[i].description == item.description.GetOr("")
           && r.suggestions[i].lineNumber == item.lineNumber.GetOr("")
           && r.suggestions[i].severity == item.severity.GetOr("")
           && r.suggestions[i].before == item.before.GetOr("")
           && r.suggestions[i].after == item.after.GetOr("")
  {
  }

  /** Specification of `AnalyzeCodeAsync`. */
  function Analysis(file: CodeFile, service: Service): Result<CodeAnalysisResult> {
    match service.post(BuildRequest(CreateAnalysisPrompt(file.content)))
    case Failure(e) => Failure(e)
    case Success(response) =>
      if !response.isSuccessStatusCode then
        Failure("OpenAI API error: " + response.statusCode + " - " + response.body)
      else
        match service.messageContent(response.body)
        case Failure(e) => Failure(e)
        case Success(content) => Success(ParsedResponse(file, content.GetOr(""), service.parseJson))
  }

  /** `AnalyzeCodeAsync`: posts the prompt, throws on a non-success status,
      and parses the message content ("" when it is missing). */
  method AnalyzeCode(file: CodeFile, service: Service) returns (r: Result<CodeAnalysisResult>)
    ensures r == Analysis(file, service)
  {
    var analysisPrompt := CreateAnalysisPrompt(file.content);
    var posted := service.post(BuildRequest(analysisPrompt));
    if posted.Failure? {
      return Failure(posted.error);
    }
    var response := posted.value;
    if !response.isSuccessStatusCode {
      return Failure("OpenAI API error: " + response.statusCode + " - " + response.body);
    }
    var content := service.messageContent(response.body);
    if content.Failure? {
      return Failure(content.error);
    }
    var parsed := ParseAnalysisResponse(file, content.value.GetOr(""), service.parseJson);
    return Success(parsed);
  }

  /** A non-success status is an error naming the status and the body; the
      posted request carries the file's content in its user message. */
  lemma StatusErrorReported(file: CodeFile, service: Service)
    requires service.post(BuildRequest(CreateAnalysisPrompt(file.content))).Success?
    requires !service.post(BuildRequest(CreateAnalysisPrompt(file.content))).value.isSuccessStatusCode
    ensures var response := service.post(BuildRequest(CreateAnalysisPrompt(file.content))).value;
      Analysis(file, service) == Failure("OpenAI API error: " + response.statusCode + " - " + response.body)
    ensures SubmittedCode(BuildRequest(CreateAnalysisPrompt(file.content)).messages[1].content) == Some(file.content)
  {
    PromptRoundTrip(file.content);
  }

  /** A success response without message content is parsed as "", which has
      no braces, so it yields the fallback. */
  lemma MissingContentFallsBack(file: CodeFile, service: Service)
    requires service.post(BuildRequest(CreateAnalysisPrompt(file.content))).Success?
    requires var response := service.post(BuildRequest(CreateAnalysisPrompt(file.content))).value;
      response.isSuccessStatusCode && service.messageContent(response.body) == Success(None)
    ensures Analysis(file, service) == Success(Fallback(file))
  {
    NoBracesFallsBack(file, "", service.parseJson);
  }
}

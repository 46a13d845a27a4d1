/**
 `ComprehendService`: entity, key-phrase and sentiment detection over chunked
 text. The Comprehend API is an oracle from a chunk to its detections, or to
 `None` where it raises ClientError (the chunk is then skipped). Scores are the
 rounded scores as integers (ten-thousandths); in the result dicts they are the
 Python floats `round(score, 4)` gives.
 */
module Comprehend {
  import opened Wrappers
  import opened Strings
  import opened Json
  import opened Chunking
  import opened Ranking

  datatype Entity = Entity(text: string, kind: string, score: int)

  datatype KeyPhrase = KeyPhrase(text: string, score: int)

  /** Confidence per sentiment class. */
  datatype Scores = Scores(positive: int, negative: int, neutral: int, mixed: int)

  /** The `detect_sentiment` dict; `scores == None` is the empty `{}`. */
  datatype Sentiment = Sentiment(dominant: string, scores: Option<Scores>, error: Option<string>)

  /** The `analyze_text` dict. */
  datatype Analysis = Analysis(entities: seq<Entity>, keyPhrases: seq<KeyPhrase>, sentiment: Sentiment)

  /** `f"{entity['Type']}:{entity['Text']}"`. */
  function EntityKey(e: Entity): string {
    e.kind + ":" + e.text
  }

  function EntityScore(e: Entity): int {
    e.score
  }

  /** Key phrases are merged case-insensitively. */
  function PhraseKey(p: KeyPhrase): string {
    Lower(p.text)
  }

  function PhraseScore(p: KeyPhrase): int {
    p.score
  }

  /** A chunk is sent to Comprehend only when it is not blank. */
  predicate Sent<T>(chunk: string, call: string -> Option<seq<T>>) {
    Strip(chunk) != "" && call(chunk).Some?
  }

  /**
   The detections of every non-blank chunk whose call succeeded, in chunk
   order. Folding them into the table one by one is the loop over chunks.
   */
  function Gather<T(==,!new)>(chunks: seq<string>, call: string -> Option<seq<T>>): (r: seq<T>)
    ensures forall x :: x in r <==> exists i :: 0 <= i < |chunks| && Sent(chunks[i], call) && x in call(chunks[i]).value
  {
    if chunks == [] then []
    else
      var here := if Sent(chunks[0], call) then call(chunks[0]).value else [];
      var rest := Gather(chunks[1..], call);
      assert forall i :: 1 <= i < |chunks| ==> chunks[i] == chunks[1..][i - 1];
      assert forall x :: (exists i :: 1 <= i < |chunks| && Sent(chunks[i], call) && x in call(chunks[i]).value)
                     ==> x in rest by {
        forall x | exists i :: 1 <= i < |chunks| && Sent(chunks[i], call) && x in call(chunks[i]).value
          ensures x in rest
        {
          var i :| 1 <= i < |chunks| && Sent(chunks[i], call) && x in call(chunks[i]).value;
          assert chunks[1..][i - 1] == chunks[i];
        }
      }
      here + rest
  }

  /** `detect_entities`: one entity per `Type:Text`, best score kept, highest first. */
  function DetectEntities(text: string, call: string -> Option<seq<Entity>>): seq<Entity> {
    Rank(Gather(ChunkText(text, MAX_BYTES), call), EntityKey, EntityScore)
  }

  /** `detect_key_phrases`: one phrase per lower-cased text, best score kept, highest first. */
  function DetectKeyPhrases(text: string, call: string -> Option<seq<KeyPhrase>>): seq<KeyPhrase> {
    Rank(Gather(ChunkText(text, MAX_BYTES), call), PhraseKey, PhraseScore)
  }

  /**
   The entities are sorted by score, one per `Type:Text` key of the detections,
   each the best-scoring (first on ties) detection of its key.
   */
  lemma DetectEntitiesSpec(text: string, call: string -> Option<seq<Entity>>)
    ensures var items := Gather(ChunkText(text, MAX_BYTES), call);
      var r := DetectEntities(text, call);
      && SortedDesc(r, EntityScore)
      && KeysDistinct(r, EntityKey)
      && (forall i :: 0 <= i < |r| ==> IsBestOf(items, r[i], EntityKey, EntityScore))
      && (forall j :: 0 <= j < |items| ==> HasKey(r, EntityKey(items[j]), EntityKey))
  {
    RankSpec(Gather(ChunkText(text, MAX_BYTES), call), EntityKey, EntityScore);
  }

  /**
   The key phrases are sorted by score, one per lower-cased text, each keeping
   the original text of its best-scoring (first on ties) occurrence.
   */
  lemma DetectKeyPhrasesSpec(text: string, call: string -> Option<seq<KeyPhrase>>)
    ensures var items := Gather(ChunkText(text, MAX_BYTES), call);
      var r := DetectKeyPhrases(text, call);
      && SortedDesc(r, PhraseScore)
      && KeysDistinct(r, PhraseKey)
      && (forall i :: 0 <= i < |r| ==> IsBestOf(items, r[i], PhraseKey, PhraseScore))
      && (forall j :: 0 <= j < |items| ==> HasKey(r, PhraseKey(items[j]), PhraseKey))
  {
    RankSpec(Gather(ChunkText(text, MAX_BYTES), call), PhraseKey, PhraseScore);
  }

  /** Blank chunks contribute nothing, whatever Comprehend would say about them. */
  lemma {:induction false} GatherOfBlank<T(!new)>(chunks: seq<string>, call: string -> Option<seq<T>>)
    requires AllKeep(chunks, IsSpace)
    ensures Gather(chunks, call) == []
  {
    if chunks != [] {
      StripEmptyIffBlank(chunks[0]);
      assert AllKeep(chunks[1..], IsSpace) by {
        assert forall i :: 0 <= i < |chunks[1..]| ==> chunks[1..][i] == chunks[i + 1];
      }
      GatherOfBlank(chunks[1..], call);
    }
  }

  /** Whitespace-only text yields no entities and no key phrases. */
  lemma BlankTextDetectsNothing(text: string, entities: string -> Option<seq<Entity>>, phrases: string -> Option<seq<KeyPhrase>>)
    requires AllChars(text, IsSpace)
    ensures DetectEntities(text, entities) == []
    ensures DetectKeyPhrases(text, phrases) == []
  {
    BlankTextBlankChunks(text, MAX_BYTES, ByteSlice);
    GatherOfBlank(ChunkText(text, MAX_BYTES), entities);
    GatherOfBlank(ChunkText(text, MAX_BYTES), phrases);
  }

  /* ---------------------------------------------------------------------- */
  /* Sentiment                                                              */
  /* ---------------------------------------------------------------------- */

  /** The answer for blank text: NEUTRAL with empty scores. */
  const Neutral := Sentiment("NEUTRAL", None, None)

  /** The dict built from a `detect_sentiment` response, or UNKNOWN with the error. */
  function FromResponse(response: Result<(string, Scores)>): (r: Sentiment)
    ensures r.error.Some? <==> response.Err?
    ensures response.Ok? ==> r.dominant == response.value.0 && r.scores == Some(response.value.1)
    ensures response.Err? ==> r == Sentiment("UNKNOWN", None, Some(response.error))
  {
    match response
    case Ok((dominant, scores)) => Sentiment(dominant, Some(scores), None)
    case Err(e) => Sentiment("UNKNOWN", None, Some(e))
  }

  /** The sentiment of the one chunk sampled: NEUTRAL when blank, otherwise Comprehend's answer. */
  function SentimentOf(chunk: string, call: string -> Result<(string, Scores)>): Sentiment {
    if Strip(chunk) == "" then Neutral else FromResponse(call(chunk))
  }

  /**
   `detect_sentiment` as written: the first chunk of non-empty text is
   indexed without checking that there is one; `None` is the IndexError.
   */
  function DetectSentimentAsWritten(text: string, call: string -> Result<(string, Scores)>): Option<Sentiment> {
    if text == "" then Some(SentimentOf("", call))
    else
      var chunks := ChunkTextAsWritten(text, MAX_BYTES);
      if chunks == [] then None else Some(SentimentOf(chunks[0], call))
  }

  /** `detect_sentiment` with an empty chunk list read as blank text. */
  function DetectSentiment(text: string, call: string -> Result<(string, Scores)>): Sentiment {
    var chunks := ChunkText(text, MAX_BYTES);
    SentimentOf(if text != "" && chunks != [] then chunks[0] else "", call)
  }

  /** Empty or whitespace-only text is NEUTRAL with empty scores, and Comprehend is not asked. */
  lemma BlankTextIsNeutral(text: string, call: string -> Result<(string, Scores)>)
    requires AllChars(text, IsSpace)
    ensures DetectSentiment(text, call) == Neutral
  {
    var chunks := ChunkText(text, MAX_BYTES);
    BlankTextBlankChunks(text, MAX_BYTES, ByteSlice);
    if text != "" && chunks != [] {
      StripEmptyIffBlank(chunks[0]);
    }
  }

  /** Text within the limit is sent whole: the answer is Comprehend's answer about the text itself. */
  lemma ShortTextSentiment(text: string, call: string -> Result<(string, Scores)>)
    requires Utf8Length(text) <= MAX_BYTES && Strip(text) != ""
    ensures DetectSentiment(text, call) == FromResponse(call(text))
    ensures DetectSentimentAsWritten(text, call) == Some(FromResponse(call(text)))
  {
  }

  /**
   As written, text made only of newlines and longer than the limit has no
   chunk, so indexing the first one raises.
   */
  lemma NewlineTextRaises(text: string, call: string -> Result<(string, Scores)>)
    requires AllChars(text, IsNewline) && Utf8Length(text) > MAX_BYTES
    ensures DetectSentimentAsWritten(text, call) == None
    ensures DetectSentiment(text, call) == Neutral
  {
    NewlinesYieldNoChunks(text, MAX_BYTES, CharSlice);
    NewlinesYieldNoChunks(text, MAX_BYTES, ByteSlice);
  }

  /** 5001 newlines: over the limit, and nothing but newlines. */
  function NewlineRun(): string {
    seq(MAX_BYTES + 1, _ => '\n')
  }

  /** The concrete input: `detect_sentiment("\n" * 5001)` raises as written and is NEUTRAL corrected. */
  lemma NewlineRunRaises(call: string -> Result<(string, Scores)>)
    ensures DetectSentimentAsWritten(NewlineRun(), call) == None
    ensures DetectSentiment(NewlineRun(), call) == Neutral
  {
    Utf8LengthRun('\n', MAX_BYTES + 1);
    NewlineTextRaises(NewlineRun(), call);
  }

  /* ---------------------------------------------------------------------- */
  /* The whole analysis                                                     */
  /* ---------------------------------------------------------------------- */

  /** The analysis carries a score: an entity, a key phrase or sentiment scores. */
  predicate Scored(a: Analysis) {
    a.entities != [] || a.keyPhrases != [] || a.sentiment.scores.Some?
  }

  /** `analyze_text`: the three detections over the same text. */
  function AnalyzeText(
    text: string,
    entities: string -> Option<seq<Entity>>,
    phrases: string -> Option<seq<KeyPhrase>>,
    sentiment: string -> Result<(string, Scores)>
  ): Analysis {
    Analysis(DetectEntities(text, entities), DetectKeyPhrases(text, phrases), DetectSentiment(text, sentiment))
  }

  /**
   `analyze_text` as the code is written: chunks cut by characters, and `None`
   where `detect_sentiment` raises IndexError on an empty chunk list (after
   entities and key phrases were asked for).
   */
  function AnalyzeTextAsWritten(
    text: string,
    entities: string -> Option<seq<Entity>>,
    phrases: string -> Option<seq<KeyPhrase>>,
    sentiment: string -> Result<(string, Scores)>
  ): (r: Option<Analysis>)
    ensures r.None? <==> DetectSentimentAsWritten(text, sentiment).None?
  {
    var chunks := ChunkTextAsWritten(text, MAX_BYTES);
    match DetectSentimentAsWritten(text, sentiment)
    case None => None
    case Some(s) =>
      Some(Analysis(Rank(Gather(chunks, entities), EntityKey, EntityScore), Rank(Gather(chunks, phrases), PhraseKey, PhraseScore), s))
  }

  /**
   For one-byte text that is empty or has a chunk, the code's analysis is the
   corrected one: the two fixes change only multi-byte text and text with no
   chunk.
   */
  lemma AsciiAnalysisAgrees(
    text: string,
    entities: string -> Option<seq<Entity>>,
    phrases: string -> Option<seq<KeyPhrase>>,
    sentiment: string -> Result<(string, Scores)>
  )
    requires AllChars(text, IsAscii)
    requires text == "" || ChunkText(text, MAX_BYTES) != []
    ensures AnalyzeTextAsWritten(text, entities, phrases, sentiment) == Some(AnalyzeText(text, entities, phrases, sentiment))
  {
    AsciiChunkingAgrees(text, MAX_BYTES);
  }

  /** The concrete input of the second finding: `analyze_text("\n" * 5001)` raises as written. */
  lemma NewlineRunAnalysisRaises(
    entities: string -> Option<seq<Entity>>,
    phrases: string -> Option<seq<KeyPhrase>>,
    sentiment: string -> Result<(string, Scores)>
  )
    ensures AnalyzeTextAsWritten(NewlineRun(), entities, phrases, sentiment) == None
    ensures AnalyzeText(NewlineRun(), entities, phrases, sentiment) == Analysis([], [], Neutral)
  {
    NewlineRunRaises(sentiment);
    BlankTextAnalysis(NewlineRun(), entities, phrases, sentiment);
  }

  /** Blank text analyses to nothing, whatever Comprehend would answer. */
  lemma BlankTextAnalysis(
    text: string,
    entities: string -> Option<seq<Entity>>,
    phrases: string -> Option<seq<KeyPhrase>>,
    sentiment: string -> Result<(string, Scores)>
  )
    requires AllChars(text, IsSpace)
    ensures AnalyzeText(text, entities, phrases, sentiment) == Analysis([], [], Neutral)
  {
    BlankTextDetectsNothing(text, entities, phrases);
    BlankTextIsNeutral(text, sentiment);
  }

  /* ---------------------------------------------------------------------- */
  /* As JSON                                                                */
  /* ---------------------------------------------------------------------- */

  /** `round(score, 4)`: a float with four decimal places. */
  const SCORE_DIGITS: nat := 4

  function EntityJson(e: Entity): Value {
    Obj([("text", Str(e.text)), ("type", Str(e.kind)), ("score", Float(e.score, SCORE_DIGITS))])
  }

  function PhraseJson(p: KeyPhrase): Value {
    Obj([("text", Str(p.text)), ("score", Float(p.score, SCORE_DIGITS))])
  }

  function EntitiesJson(es: seq<Entity>): (v: Value)
    ensures v.Arr? && |v.items| == |es|
  {
    Arr(seq(|es|, i requires 0 <= i < |es| => EntityJson(es[i])))
  }

  function PhrasesJson(ps: seq<KeyPhrase>): (v: Value)
    ensures v.Arr? && |v.items| == |ps|
  {
    Arr(seq(|ps|, i requires 0 <= i < |ps| => PhraseJson(ps[i])))
  }

  function ScoresJson(s: Option<Scores>): Value {
    match s
    case None => Obj([])
    case Some(sc) =>
      Obj([("positive", Float(sc.positive, SCORE_DIGITS)), ("negative", Float(sc.negative, SCORE_DIGITS)),
           ("neutral", Float(sc.neutral, SCORE_DIGITS)), ("mixed", Float(sc.mixed, SCORE_DIGITS))])
  }

  function SentimentJson(s: Sentiment): Value {
    Obj([("sentiment", Str(s.dominant)), ("scores", ScoresJson(s.scores))]
        + (if s.error.Some? then [("error", Str(s.error.value))] else []))
  }

  function AnalysisJson(a: Analysis): Value {
    Obj([("entities", EntitiesJson(a.entities)),
         ("key_phrases", PhrasesJson(a.keyPhrases)),
         ("sentiment", SentimentJson(a.sentiment))])
  }
}

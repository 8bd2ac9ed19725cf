/** The analysis step `analisarTextoComIA`: a guard that skips texts too short
    to be worth analysing, the prompt that embeds a bounded excerpt of the
    text, the call to the generative service, the cleaning and parsing of its
    reply, and the single error record that replaces any failure.
    The generative service and JSON.parse are parameters of the model: a
    `Generator` is what the service answers to a prompt, a `Parser` is what
    JSON.parse makes of a string. */
module Analysis {
  import opened JsValues
  import Cleaning

  /** Texts shorter than this are not sent to the service. */
  const MinTextLength: nat := 20
  /** At most this many characters of the text are embedded in the prompt. */
  const MaxExcerptLength: nat := 50000

  /** The fixed instruction that precedes the excerpt, and the closing quotes
      that follow it. */
  const PromptHead: string :=
    "Voc\U{EA} \U{E9} um especialista em analisar documentos e p\U{E1}ginas "
    + "de licita\U{E7}\U{F5}es. O texto a seguir foi extra\U{ED}do de uma "
    + "p\U{E1}gina web, potencialmente de um popup ou modal. Sua tarefa "
    + "\U{E9} encontrar TODAS as empresas que est\U{E3}o com o status "
    + "\"Desclassificada\" ou \"Inabilitada\". Para cada empresa, extraia: 1. "
    + "razaoSocial, 2. cnpj (se houver), 3. motivoDaPerda (resumido). Retorne "
    + "um array de objetos JSON. Se n\U{E3}o encontrar nada, retorne um array "
    + "vazio []. TEXTO: \"\"\" "
  const PromptTail: string := " \"\"\""

  /** The key and message prefix of the record that reports a failure. */
  const ErrorKey: string := "erro"
  const ErrorPrefix: string := "Falha na an\U{E1}lise da IA: "

  /** What the generative service does with one prompt: it answers with a
      text, or the call (or reading its text) throws with a message. */
  datatype GenReply = Answered(text: string) | GenFailed(message: string)
  type Generator = string -> GenReply

  /** What JSON.parse does with one string. */
  datatype ParseResult = Parsed(value: Json) | SyntaxError(message: string)
  type Parser = string -> ParseResult

  /** The text passes the guard `!texto || texto.length < 20`: it is present
      and at least twenty characters long. */
  predicate Analysable(texto: Option<string>) {
    texto.Some? && |texto.value| >= MinTextLength
  }

  /** `texto.substring(0, 50000)`. */
  function Excerpt(t: string): (e: string)
    ensures |e| <= |t| && e == t[..|e|]
    ensures |e| <= MaxExcerptLength
    ensures |e| < |t| ==> |e| == MaxExcerptLength
  {
    if |t| <= MaxExcerptLength then t else t[..MaxExcerptLength]
  }

  /** The prompt sent for text `t`. */
  function Prompt(t: string): string {
    PromptHead + Excerpt(t) + PromptTail
  }

  /** The one-element array `[{ erro: "Falha na análise da IA: " + message }]`. */
  function ErrorRecord(message: string): Json {
    Arr([Obj(map[ErrorKey := Str(ErrorPrefix + message)])])
  }

  /** `analisarTextoComIA(texto)`: `null` for a text that fails the guard;
      otherwise the parsed, cleaned reply of the service, or the error record
      when the service call or the parse throws. */
  function AnalyseText(texto: Option<string>, gen: Generator, parse: Parser): Json {
    if !Analysable(texto) then Null
    else
      match gen(Prompt(texto.value))
      case GenFailed(m) => ErrorRecord(m)
      case Answered(reply) =>
        match parse(Cleaning.Clean(reply))
        case Parsed(v) => v
        case SyntaxError(m) => ErrorRecord(m)
  }

  /** A text that is absent, empty or shorter than twenty characters yields
      `null` whatever the service and the parser would have done: neither is
      consulted. */
  lemma ShortTextSkipsService(texto: Option<string>, gen1: Generator, parse1: Parser,
                              gen2: Generator, parse2: Parser)
    requires texto.None? || texto.value == [] || |texto.value| < MinTextLength
    ensures AnalyseText(texto, gen1, parse1) == Null
    ensures AnalyseText(texto, gen1, parse1) == AnalyseText(texto, gen2, parse2)
  {
  }

  /** The prompt determines the excerpt and the excerpt determines the prompt:
      the service sees the first min(length, 50000) characters of the text,
      nothing more and nothing less. */
  lemma PromptCarriesExactlyExcerpt(t1: string, t2: string)
    ensures Prompt(t1) == Prompt(t2) <==> Excerpt(t1) == Excerpt(t2)
  {
    var e1, e2 := Excerpt(t1), Excerpt(t2);
    if Prompt(t1) == Prompt(t2) {
      var p := Prompt(t1);
      assert |e1| == |e2|;
      assert e1 == p[|PromptHead|..|PromptHead| + |e1|];
      assert e2 == Prompt(t2)[|PromptHead|..|PromptHead| + |e2|];
    }
  }

  /** Characters after the 50000th never influence the analysis. */
  lemma TailIsNeverAnalysed(t1: string, t2: string, gen: Generator, parse: Parser)
    requires |t1| >= MaxExcerptLength && |t2| >= MaxExcerptLength
    requires t1[..MaxExcerptLength] == t2[..MaxExcerptLength]
    ensures AnalyseText(Some(t1), gen, parse) == AnalyseText(Some(t2), gen, parse)
  {
    assert Excerpt(t1) == Excerpt(t2);
  }

  /** A failing service call gives exactly one record whose only field is
      `erro`, carrying the service's message. */
  lemma ServiceFailureGivesErrorRecord(t: string, gen: Generator, parse: Parser)
    requires |t| >= MinTextLength && gen(Prompt(t)).GenFailed?
    ensures AnalyseText(Some(t), gen, parse) == ErrorRecord(gen(Prompt(t)).message)
    ensures var r := AnalyseText(Some(t), gen, parse);
      && r.Arr? && |r.items| == 1 && r.items[0].Obj?
      && r.items[0].fields.Keys == {ErrorKey}
      && r.items[0].fields[ErrorKey] == Str(ErrorPrefix + gen(Prompt(t)).message)
  {
  }

  /** A reply that JSON.parse rejects once cleaned gives exactly one record
      whose only field is `erro`, carrying the parser's message. */
  lemma ParseFailureGivesErrorRecord(t: string, gen: Generator, parse: Parser)
    requires |t| >= MinTextLength && gen(Prompt(t)).Answered?
    requires parse(Cleaning.Clean(gen(Prompt(t)).text)).SyntaxError?
    ensures AnalyseText(Some(t), gen, parse)
         == ErrorRecord(parse(Cleaning.Clean(gen(Prompt(t)).text)).message)
    ensures var r := AnalyseText(Some(t), gen, parse);
      && r.Arr? && |r.items| == 1 && r.items[0].Obj?
      && r.items[0].fields.Keys == {ErrorKey}
      && r.items[0].fields[ErrorKey]
         == Str(ErrorPrefix + parse(Cleaning.Clean(gen(Prompt(t)).text)).message)
  {
  }

  /** The result never depends on the fences and the surrounding white space
      of the reply: cleaning the reply first changes nothing. */
  lemma ReplyCleanedOnce(t: string, reply: string, gen1: Generator, gen2: Generator, parse: Parser)
    requires |t| >= MinTextLength
    requires gen1(Prompt(t)) == Answered(reply)
    requires gen2(Prompt(t)) == Answered(Cleaning.Clean(reply))
    ensures AnalyseText(Some(t), gen1, parse) == AnalyseText(Some(t), gen2, parse)
  {
    Cleaning.CleanIdempotent(reply);
  }

  /** A fenced empty array "```json\n[]\n```" is read as the empty array, not
      as an error, by any parser that reads "[]" as the empty array. */
  lemma FencedEmptyReplyIsEmptyArray(t: string, gen: Generator, parse: Parser)
    requires |t| >= MinTextLength
    requires gen(Prompt(t)) == Answered("```json\n[]\n```")
    requires parse("[]") == Parsed(Arr([]))
    ensures AnalyseText(Some(t), gen, parse) == Arr([])
  {
    Cleaning.CleanFencedEmptyArray();
  }

  /** A reply "null" is read as `null`, not as an error, by any parser that
      reads "null" as `null`. */
  lemma NullReplyIsNull(t: string, gen: Generator, parse: Parser)
    requires |t| >= MinTextLength
    requires gen(Prompt(t)) == Answered("null")
    requires parse("null") == Parsed(Null)
    ensures AnalyseText(Some(t), gen, parse) == Null
  {
    Cleaning.CleanNullReply();
  }
}

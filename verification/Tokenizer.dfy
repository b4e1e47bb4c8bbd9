/** The character-level tokenizer of the multipath configuration. */
module Tokenizer {
  import opened Text

  datatype Token = Word(text: string) | OpenBrace | CloseBrace

  // ---------- the reference: an automaton that never looks ahead ----------

  /** `QuoteSeen` is a quote inside a quotation: it either closes it or is the first of a doubled pair. */
  datatype Mode = Plain | Quoted | QuoteSeen | Comment

  datatype Lexer = Lexer(mode: Mode, word: string, tokens: seq<Token>)

  const START: Lexer := Lexer(Plain, "", [])

  /** The tokens so far, counting the unquoted word in progress if there is one. */
  function Flushed(l: Lexer): seq<Token> {
    if l.word == "" then l.tokens else l.tokens + [Word(l.word)]
  }

  function FeedPlain(l: Lexer, c: char): Lexer {
    if IsWhitespace(c) then Lexer(Plain, "", Flushed(l))
    else if c == '#' || c == '!' then Lexer(Comment, "", Flushed(l))
    else if c == '{' then Lexer(Plain, "", Flushed(l) + [OpenBrace])
    else if c == '}' then Lexer(Plain, "", Flushed(l) + [CloseBrace])
    else if c == '"' then Lexer(Quoted, "", Flushed(l))
    else Lexer(Plain, l.word + [c], l.tokens)
  }

  function Feed(l: Lexer, c: char): Lexer {
    match l.mode
    case Plain => FeedPlain(l, c)
    case Quoted => if c == '"' then l.(mode := QuoteSeen) else l.(word := l.word + [c])
    case QuoteSeen =>
      if c == '"' then Lexer(Quoted, l.word + [c], l.tokens)
      else FeedPlain(Lexer(Plain, "", l.tokens + [Word(l.word)]), c)
    case Comment => if c == '\n' || c == '\r' then FeedPlain(l.(mode := Plain), c) else l
  }

  function FeedAll(l: Lexer, s: string): Lexer
    decreases s
  {
    if s == "" then l else FeedAll(Feed(l, s[0]), s[1..])
  }

  /** A closed quotation counts even when it is empty; anything else only when it has characters. */
  function Finish(l: Lexer): seq<Token> {
    if l.mode == QuoteSeen then l.tokens + [Word(l.word)] else Flushed(l)
  }

  function Tokens(s: string): seq<Token> {
    Finish(FeedAll(START, s))
  }

  // ---------- the loop of the source, which peeks one character ahead ----------

  /** What follows position `i` yields the tokens of the whole from state `l`. */
  ghost predicate OnTrack(config: string, i: nat, l: Lexer) {
    i <= |config| && Finish(FeedAll(l, config[i..])) == Tokens(config)
  }

  lemma TrackNext(config: string, i: nat, l: Lexer)
    requires OnTrack(config, i, l) && i < |config|
    ensures OnTrack(config, i + 1, Feed(l, config[i]))
  {
    var rest := config[i..];
    assert rest[0] == config[i] && rest[1..] == config[i + 1..];
  }

  method Tokenize(config: string) returns (tokens: seq<Token>)
    ensures tokens == Tokens(config)
  {
    hide IsWhitespace;
    tokens := [];
    var currentWord, inQuote, i := "", false, 0;
    assert config[0..] == config;
    while i < |config|
      invariant OnTrack(config, i, Lexer(if inQuote then Quoted else Plain, currentWord, tokens))
      decreases |config| - i
    {
      hide OnTrack, FeedAll, Finish, Tokens;
      var c := config[i];
      TrackNext(config, i, Lexer(if inQuote then Quoted else Plain, currentWord, tokens));
      i := i + 1;
      if inQuote {
        if c == '"' {
          if i < |config| && config[i] == '"' {
            TrackNext(config, i, Lexer(QuoteSeen, currentWord, tokens));
            i := i + 1;
            currentWord := currentWord + ['"'];
          } else {
            ClosingQuote(config, i, currentWord, tokens);
            inQuote := false;
            tokens := tokens + [Word(currentWord)];
            currentWord := "";
          }
        } else {
          currentWord := currentWord + [c];
        }
      } else {
        if IsWhitespace(c) {
          tokens, currentWord := PushWord(currentWord, tokens), "";
        } else if c == '#' || c == '!' {
          tokens, currentWord := PushWord(currentWord, tokens), "";
          while i < |config| && config[i] != '\n' && config[i] != '\r'
            invariant i <= |config| && OnTrack(config, i, Lexer(Comment, "", tokens))
          {
            TrackNext(config, i, Lexer(Comment, "", tokens));
            i := i + 1;
          }
          CommentEnd(config, i, tokens);
        } else if c == '{' {
          tokens, currentWord := PushWord(currentWord, tokens), "";
          tokens := tokens + [OpenBrace];
        } else if c == '}' {
          tokens, currentWord := PushWord(currentWord, tokens), "";
          tokens := tokens + [CloseBrace];
        } else if c == '"' {
          tokens, currentWord := PushWord(currentWord, tokens), "";
          inQuote := true;
        } else {
          currentWord := currentWord + [c];
        }
      }
    }
    assert config[i..] == "";
    tokens := PushWord(currentWord, tokens);
  }

  function PushWord(word: string, tokens: seq<Token>): seq<Token> {
    if word != "" then tokens + [Word(word)] else tokens
  }

  lemma ClosingQuote(config: string, i: nat, word: string, tokens: seq<Token>)
    requires OnTrack(config, i, Lexer(QuoteSeen, word, tokens))
    requires i < |config| ==> config[i] != '"'
    ensures OnTrack(config, i, Lexer(Plain, "", tokens + [Word(word)]))
  {
    assert i < |config| ==> config[i..][0] == config[i];
  }

  lemma CommentEnd(config: string, i: nat, tokens: seq<Token>)
    requires OnTrack(config, i, Lexer(Comment, "", tokens))
    requires i < |config| ==> config[i] == '\n' || config[i] == '\r'
    ensures OnTrack(config, i, Lexer(Plain, "", tokens))
  {
    assert i < |config| ==> config[i..][0] == config[i];
  }

  // ---------- composition ----------

  lemma {:induction false} FeedConcat(l: Lexer, a: string, b: string)
    ensures FeedAll(l, a + b) == FeedAll(FeedAll(l, a), b)
    decreases a
  {
    if a == "" {
      assert a + b == b;
    } else {
      assert (a + b)[0] == a[0] && (a + b)[1..] == a[1..] + b;
      FeedConcat(Feed(l, a[0]), a[1..], b);
    }
  }

  function After(pre: seq<Token>, l: Lexer): Lexer {
    l.(tokens := pre + l.tokens)
  }

  lemma FeedAfter(pre: seq<Token>, l: Lexer, c: char)
    ensures Feed(After(pre, l), c) == After(pre, Feed(l, c))
  {
    assert forall t: Token :: pre + l.tokens + [t] == pre + (l.tokens + [t]);
    assert forall t: Token, u: Token :: pre + l.tokens + [t] + [u] == pre + (l.tokens + [t] + [u]);
  }

  /** What was produced before never matters. */
  lemma {:induction false} FeedAllAfter(pre: seq<Token>, l: Lexer, s: string)
    ensures FeedAll(After(pre, l), s) == After(pre, FeedAll(l, s))
    decreases s
  {
    if s != "" {
      FeedAfter(pre, l, s[0]);
      FeedAllAfter(pre, Feed(l, s[0]), s[1..]);
    }
  }

  /** Comments start with no word in progress. */
  ghost predicate Sane(l: Lexer) {
    l.mode == Comment ==> l.word == ""
  }

  lemma {:induction false} FeedAllSane(l: Lexer, s: string)
    requires Sane(l)
    ensures Sane(FeedAll(l, s))
    decreases s
  {
    if s != "" { FeedAllSane(Feed(l, s[0]), s[1..]); }
  }

  ghost predicate EndsOutsideQuotes(s: string) {
    FeedAll(START, s).mode != Quoted
  }

  /** A newline outside quotes closes off everything before it. */
  lemma NewlineSettles(s: string)
    requires EndsOutsideQuotes(s)
    ensures FeedAll(START, s + "\n") == Lexer(Plain, "", Tokens(s))
  {
    var l := FeedAll(START, s);
    FeedAllSane(START, s);
    FeedConcat(START, s, "\n");
    assert FeedAll(l, "\n") == Feed(l, '\n') by {
      var nl := "\n";
      assert nl[0] == '\n' && nl[1..] == "";
    }
  }

  // ---------- what each character means ----------

  /** Outside quotations and comments. */
  ghost predicate EndsPlain(s: string) {
    FeedAll(START, s).mode in {Plain, QuoteSeen}
  }

  lemma FeedOne(l: Lexer, c: char)
    ensures FeedAll(l, [c]) == Feed(l, c)
  {
    var s := [c];
    assert s[1..] == "";
  }

  lemma SettledConcat(a: string, ts: seq<Token>, b: string)
    requires FeedAll(START, a) == Lexer(Plain, "", ts)
    ensures Tokens(a + b) == ts + Tokens(b)
  {
    FeedConcat(START, a, b);
    FeedAllAfter(ts, START, b);
    assert ts + [] == ts;
    var l := FeedAll(START, b);
    assert Finish(After(ts, l)) == ts + Finish(l);
  }

  /** White space ends the token before it, and a brace is a token of its own. */
  lemma {:induction false} SeparatorSplits(a: string, c: char, b: string)
    requires EndsPlain(a) && (IsWhitespace(c) || c == '{' || c == '}')
    ensures Tokens(a + [c] + b) ==
              Tokens(a) + (if c == '{' then [OpenBrace] else if c == '}' then [CloseBrace] else []) + Tokens(b)
  {
    var ts := Tokens(a) + if c == '{' then [OpenBrace] else if c == '}' then [CloseBrace] else [];
    FeedConcat(START, a, [c]);
    FeedOne(FeedAll(START, a), c);
    assert Tokens(a) + [] == Tokens(a);
    assert FeedAll(START, a + [c]) == Lexer(Plain, "", ts);
    SettledConcat(a + [c], ts, b);
  }

  lemma {:induction false} FeedComment(ts: seq<Token>, text: string)
    requires '\n' !in text && '\r' !in text
    ensures FeedAll(Lexer(Comment, "", ts), text) == Lexer(Comment, "", ts)
    decreases text
  {
    if text != "" { FeedComment(ts, text[1..]); }
  }

  /** From "#" or "!" outside quotations to the end of the line, nothing counts. */
  lemma {:induction false} CommentIgnored(a: string, mark: char, text: string, end: char, b: string)
    requires EndsOutsideQuotes(a) && mark in {'#', '!'} && '\n' !in text && '\r' !in text && end in {'\n', '\r'}
    ensures Tokens(a + [mark] + text + [end] + b) == Tokens(a) + Tokens(b)
  {
    var l := FeedAll(START, a);
    FeedAllSane(START, a);
    FeedConcat(START, a, [mark]);
    FeedOne(l, mark);
    assert FeedAll(START, a + [mark]) == Lexer(Comment, "", Tokens(a));
    FeedConcat(START, a + [mark], text);
    FeedComment(Tokens(a), text);
    FeedConcat(START, a + [mark] + text, [end]);
    FeedOne(Lexer(Comment, "", Tokens(a)), end);
    SettledConcat(a + [mark] + text + [end], Tokens(a), b);
  }

  /** Any other character is part of a word. */
  predicate IsWordChar(c: char) {
    !IsWhitespace(c) && c !in {'{', '}', '"', '#', '!'}
  }

  lemma {:induction false} FeedWord(word: string, ts: seq<Token>, w: string)
    requires forall c | c in w :: IsWordChar(c)
    ensures FeedAll(Lexer(Plain, word, ts), w) == Lexer(Plain, word + w, ts)
    decreases w
  {
    if w == "" {
      assert word + w == word;
    } else {
      assert IsWordChar(w[0]);
      FeedWord(word + [w[0]], ts, w[1..]);
      assert word + [w[0]] + w[1..] == word + w;
    }
  }

  /** A word without special characters is one token, as it stands. */
  lemma WordIsToken(w: string)
    requires w != "" && forall c | c in w :: IsWordChar(c)
    ensures Tokens(w) == [Word(w)]
  {
    FeedWord("", [], w);
    assert "" + w == w;
  }

  lemma LinesConcat(a: string, b: string)
    requires EndsOutsideQuotes(a)
    ensures Tokens(a + "\n" + b) == Tokens(a) + Tokens(b)
  {
    NewlineSettles(a);
    FeedConcat(START, a + "\n", b);
    FeedAllAfter(Tokens(a), START, b);
    assert After(Tokens(a), START) == Lexer(Plain, "", Tokens(a)) by { assert Tokens(a) + [] == Tokens(a); }
    var l := FeedAll(START, b);
    assert Finish(After(Tokens(a), l)) == Tokens(a) + Finish(l);
  }

  /** Texts can be tokenized line group by line group exactly when the first one ends outside quotes. */
  lemma LinesConcatIff(a: string)
    ensures EndsOutsideQuotes(a) <==> forall b :: Tokens(a + "\n" + b) == Tokens(a) + Tokens(b)
  {
    if EndsOutsideQuotes(a) {
      forall b ensures Tokens(a + "\n" + b) == Tokens(a) + Tokens(b) {
        LinesConcat(a, b);
      }
    } else {
      var l := FeedAll(START, a);
      FeedConcat(START, a, "\n");
      assert FeedAll(l, "\n") == Feed(l, '\n') by {
        var nl := "\n";
        assert nl[0] == '\n' && nl[1..] == "";
      }
      assert a + "\n" + "" == a + "\n";
      var joined, apart := Tokens(a + "\n" + ""), Tokens(a) + Tokens("");
      assert joined == l.tokens + [Word(l.word + "\n")];
      if l.word == "" {
        assert |apart| < |joined|;
      } else {
        assert apart == l.tokens + [Word(l.word)] && apart[|l.tokens|] != joined[|l.tokens|];
      }
    }
  }
}

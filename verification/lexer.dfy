/** The strict lexer (src/main.rs, struct Parser): spaces and newlines are
    deleted from the source, then every remaining character must be one of
    the eight symbols, and the first one that is not aborts lexing with the
    character and its index in the cleaned text. */
module Lexer {
  import opened Tokens

  /** The panic at src/main.rs:38, carrying the offending character and its
      index in the cleaned text. */
  datatype LexError = InvalidInput(ch: char, position: nat)

  datatype LexResult = Lexed(tokens: seq<Token>) | Failed(error: LexError)

  /** The two characters `Parser::new` deletes. Tabs and carriage returns
      are not among them. */
  predicate IsBlank(c: char) {
    c == ' ' || c == '\n'
  }

  /** `s.replace(c, "")` for a one-character pattern `c`. */
  function RemoveAll(s: string, c: char): (r: string)
    ensures forall x :: x in r <==> x in s && x != c
    ensures |r| <= |s|
  {
    if |s| == 0 then []
    else (if s[0] == c then [] else [s[0]]) + RemoveAll(s[1..], c)
  }

  /** The text `Parser::new` keeps: `source.replace(" ", "").replace("\n", "")`. */
  function Clean(source: string): (r: string)
    ensures forall x :: x in r <==> x in source && !IsBlank(x)
  {
    RemoveAll(RemoveAll(source, ' '), '\n')
  }

  /** `RemoveAll` deletes every copy of `c` and keeps every other
      character as many times as it occurs. */
  lemma {:induction false} RemoveAllCounts(s: string, c: char)
    ensures multiset(RemoveAll(s, c)) == multiset(s)[c := 0]
  {
    if |s| > 0 {
      assert s == [s[0]] + s[1..];
      RemoveAllCounts(s[1..], c);
    }
  }

  /** Cleaning deletes every space and newline and keeps every other
      character of the source with its count. */
  lemma CleanCounts(source: string)
    ensures multiset(Clean(source)) == multiset(source)[' ' := 0]['\n' := 0]
  {
    RemoveAllCounts(source, ' ');
    RemoveAllCounts(RemoveAll(source, ' '), '\n');
  }

  /** Scanning the cleaned `text` from index `i` on, as the loop of
      `Parser::parse` does from the moment its index reaches `i`. */
  function Scan(text: string, i: nat): (r: LexResult)
    requires i <= |text|
    ensures r.Lexed? <==> forall k :: i <= k < |text| ==> Symbol(text[k]).Some?
    ensures r.Lexed? ==>
      && |r.tokens| == |text| - i
      && forall k :: 0 <= k < |r.tokens| ==> Symbol(text[i + k]) == Some(r.tokens[k])
    ensures r.Failed? ==>
      && i <= r.error.position < |text|
      && text[r.error.position] == r.error.ch
      && Symbol(r.error.ch).None?
      && forall k :: i <= k < r.error.position ==> Symbol(text[k]).Some?
    decreases |text| - i
  {
    if i == |text| then Lexed([])
    else
      match Symbol(text[i])
      case None => Failed(InvalidInput(text[i], i))
      case Some(t) =>
        match Scan(text, i + 1)
        case Lexed(ts) => Lexed([t] + ts)
        case Failed(e) => Failed(e)
  }

  /** `Parser::new(source).parse()`, with the panic as a `Failed` result. */
  function Lex(source: string): (r: LexResult)
    ensures r.Lexed? <==> forall k :: 0 <= k < |Clean(source)| ==> Symbol(Clean(source)[k]).Some?
    ensures r.Lexed? ==>
      && |r.tokens| == |Clean(source)|
      && forall k :: 0 <= k < |r.tokens| ==> Symbol(Clean(source)[k]) == Some(r.tokens[k])
    ensures r.Failed? ==>
      && r.error.position < |Clean(source)|
      && Clean(source)[r.error.position] == r.error.ch
      && r.error.ch in source && !IsBlank(r.error.ch) && Symbol(r.error.ch).None?
      && forall k :: 0 <= k < r.error.position ==> Symbol(Clean(source)[k]).Some?
  {
    Scan(Clean(source), 0)
  }

  /** The loop of `Parser::parse` as written: an index walks the cleaned
      text, each symbol pushes one token, and any other character stops the
      walk with an error. */
  method Parse(source: string) returns (r: LexResult)
    ensures r == Lex(source)
  {
    var text := Clean(source);
    var parsed: seq<Token> := [];
    var index := 0;
    while index < |text|
      invariant index <= |text|
      invariant |parsed| == index
      invariant forall k :: 0 <= k < index ==> Symbol(text[k]) == Some(parsed[k])
    {
      match Symbol(text[index])
      case None =>
        r := Failed(InvalidInput(text[index], index));
        LexFailsAtFirstForeign(text, index);
        return;
      case Some(t) =>
        parsed := parsed + [t];
      index := index + 1;
    }
    r := Lexed(parsed);
    assert r.tokens == Lex(source).tokens;
  }

  /** Scanning from 0 fails exactly at the first character that is not a
      symbol. */
  lemma LexFailsAtFirstForeign(text: string, p: nat)
    requires p < |text| && Symbol(text[p]).None?
    requires forall k :: 0 <= k < p ==> Symbol(text[k]).Some?
    ensures Scan(text, 0) == Failed(InvalidInput(text[p], p))
  {
  }

  /** Lexing succeeds exactly when every character of the raw source is a
      space, a newline or one of the eight symbols. */
  lemma LexSucceedsIff(source: string)
    ensures Lex(source).Lexed? <==>
      forall k :: 0 <= k < |source| ==> IsBlank(source[k]) || Symbol(source[k]).Some?
  {
    var text := Clean(source);
    if Lex(source).Lexed? {
      forall k | 0 <= k < |source|
        ensures IsBlank(source[k]) || Symbol(source[k]).Some?
      {
        var c := source[k];
        if !IsBlank(c) {
          assert c in text;
          var j :| 0 <= j < |text| && text[j] == c;
        }
      }
    } else {
      var e := Lex(source).error;
      var k :| 0 <= k < |source| && source[k] == e.ch;
      assert !(IsBlank(source[k]) || Symbol(source[k]).Some?);
    }
  }

  /** One step of `RemoveAll`, stated for a source written as head and tail. */
  lemma RemoveAllCons(x: char, t: string, c: char)
    ensures RemoveAll([x] + t, c) == (if x == c then [] else [x]) + RemoveAll(t, c)
  {
    assert ([x] + t)[1..] == t;
  }

  lemma {:induction false} RemoveAllAppend(a: string, b: string, c: char)
    ensures RemoveAll(a + b, c) == RemoveAll(a, c) + RemoveAll(b, c)
  {
    if |a| > 0 {
      var x, t := a[0], a[1..];
      var head := if x == c then [] else [x];
      assert a == [x] + t;
      assert a + b == [x] + (t + b);
      RemoveAllCons(x, t + b, c);
      RemoveAllCons(x, t, c);
      RemoveAllAppend(t, b, c);
      assert head + (RemoveAll(t, c) + RemoveAll(b, c)) == (head + RemoveAll(t, c)) + RemoveAll(b, c);
    } else {
      assert a + b == b;
    }
  }

  lemma {:induction false} RemoveAllAbsent(s: string, c: char)
    requires c !in s
    ensures RemoveAll(s, c) == s
  {
    if |s| > 0 {
      assert c !in s[1..];
      RemoveAllAbsent(s[1..], c);
    }
  }

  /** Cleaning distributes over concatenation. */
  lemma CleanAppend(a: string, b: string)
    ensures Clean(a + b) == Clean(a) + Clean(b)
  {
    RemoveAllAppend(a, b, ' ');
    RemoveAllAppend(RemoveAll(a, ' '), RemoveAll(b, ' '), '\n');
  }

  /** A space or newline anywhere in the source changes nothing: not the
      tokens, not whether lexing fails, and not the reported error position. */
  lemma BlankIsInvisible(a: string, b: char, c: string)
    requires IsBlank(b)
    ensures Lex(a + [b] + c) == Lex(a + c)
  {
    assert Clean([b]) == [] by {
      assert RemoveAll([b], b) == [];
      if b == ' ' {
        assert RemoveAll([b], '\n') == [b];
      }
    }
    CleanAppend(a + [b], c);
    CleanAppend(a, [b]);
    CleanAppend(a, c);
    assert Clean(a + [b]) == Clean(a);
  }

  /** A source made only of spaces and newlines lexes to no tokens. */
  lemma BlankSourceLexesEmpty(source: string)
    requires forall k :: 0 <= k < |source| ==> IsBlank(source[k])
    ensures Lex(source) == Lexed([])
  {
    var text := Clean(source);
    CleanCounts(source);
    forall x ensures multiset(text)[x] == 0 {
      if x in source {
        var k :| 0 <= k < |source| && source[k] == x;
      }
    }
    assert multiset(text) == multiset{};
  }

  /** Round trip: rendering tokens as symbols and lexing gives them back. */
  lemma LexRender(ts: seq<Token>)
    ensures Lex(Render(ts)) == Lexed(ts)
  {
    var s := Render(ts);
    assert ' ' !in s && '\n' !in s by {
      forall k | 0 <= k < |s| ensures !IsBlank(s[k]) {
        assert Symbol(s[k]).Some?;
      }
    }
    RemoveAllAbsent(s, ' ');
    RemoveAllAbsent(s, '\n');
    assert Clean(s) == s;
    var r := Lex(s);
    assert r.Lexed?;
    assert r.tokens == ts by {
      forall k | 0 <= k < |ts| ensures r.tokens[k] == ts[k] {
        assert Symbol(s[k]) == Some(r.tokens[k]);
      }
    }
  }

  /** The other direction: when lexing succeeds, rendering the tokens gives
      back exactly the cleaned source. */
  lemma RenderLex(source: string)
    requires Lex(source).Lexed?
    ensures Render(Lex(source).tokens) == Clean(source)
  {
    var ts := Lex(source).tokens;
    var text := Clean(source);
    forall k | 0 <= k < |ts| ensures Render(ts)[k] == text[k] {
      GlyphOfSymbol(text[k]);
    }
  }
}

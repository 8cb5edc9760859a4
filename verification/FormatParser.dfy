// The lexer of log formats, util::formatParser (util/util.cpp:227-286).
module FormatParsers {

  // Kind 0 is literal text, kind 1 an item `%c`, kind 2 a date `%d{...}`.
  datatype Token = Literal(s: string) | Item(c: char) | Date(s: string)

  // The error carries the text after the `%d{` that is never closed.
  datatype Parsed = Tokens(tokens: seq<Token>) | FormatError(rest: string)

  function Text(t: Token): string {
    match t
    case Literal(s) => s
    case Item(c) => "%" + [c]
    case Date(s) => "%d{" + s + "}"
  }

  function Unparse(tokens: seq<Token>): string {
    if tokens == [] then "" else Text(tokens[0]) + Unparse(tokens[1..])
  }

  // ----- Lexing, as a function -----

  // The text before the first c.
  function Before(s: string, c: char): (r: string)
    ensures |r| <= |s|
  {
    if s == "" || s[0] == c then "" else [s[0]] + Before(s[1..], c)
  }

  lemma {:induction false} BeforeIs(s: string, c: char)
    ensures var r := Before(s, c);
            r == s[..|r|] && c !in r && (|r| < |s| ==> s[|r|] == c)
  {
    if s != "" && s[0] != c {
      BeforeIs(s[1..], c);
      var r := Before(s[1..], c);
      assert s[..|r| + 1] == [s[0]] + s[1..][..|r|];
    }
  }

  predicate OpensDate(s: string) {
    |s| > 2 && s[0] == '%' && s[1] == 'd' && s[2] == '{'
  }

  // The date that s opens is closed: there is a `}` later.
  predicate Closed(s: string)
    requires OpensDate(s)
  {
    |Before(s[3..], '}')| < |s| - 3
  }

  lemma ClosedMeans(s: string)
    requires OpensDate(s)
    ensures Closed(s) <==> '}' in s[3..]
  {
    BeforeIs(s[3..], '}');
  }

  predicate Lexable(s: string) {
    s != "" && (OpensDate(s) ==> Closed(s))
  }

  function First(s: string): Token
    requires Lexable(s)
  {
    if s[0] != '%' then Literal(Before(s, '%'))
    else if |s| > 1 && s[1] != '%' then
      if OpensDate(s) then Date(Before(s[3..], '}')) else Item(s[1])
    else Literal("%")
  }

  // How far the first token goes, and what comes after it.
  function Step(s: string): (n: nat)
    requires Lexable(s)
    ensures 0 < n <= |s|
  {
    if s[0] != '%' then |Before(s, '%')|
    else if |s| > 1 && s[1] != '%' then
      if OpensDate(s) then |Before(s[3..], '}')| + 4 else 2
    else 1
  }

  function After(s: string): (rest: string)
    requires Lexable(s)
    ensures |rest| < |s|
  {
    s[Step(s)..]
  }

  lemma FirstText(s: string)
    requires Lexable(s)
    ensures Text(First(s)) == s[..Step(s)]
  {
    if s[0] != '%' {
      BeforeIs(s, '%');
    } else if |s| > 1 && s[1] != '%' && OpensDate(s) {
      BeforeIs(s[3..], '}');
      var n := |Before(s[3..], '}')|;
      assert s[..n + 4] == s[..3] + s[3..][..n] + [s[n + 3]];
      assert s[n + 3] == s[3..][n];
    }
  }

  function Lex(s: string): Parsed
    decreases |s|
  {
    if s == "" then Tokens([])
    else if !Lexable(s) then FormatError(s[3..])
    else
      var rest := Lex(After(s));
      if rest.FormatError? then rest else Tokens([First(s)] + rest.tokens)
  }

  // What the whole string lexes to, once `res` has been read and s is left.
  function Prepend(res: seq<Token>, rest: Parsed): Parsed {
    if rest.FormatError? then rest else Tokens(res + rest.tokens)
  }

  lemma LexCons(t: string)
    requires Lexable(t)
    ensures Lex(t) == Prepend([First(t)], Lex(After(t)))
  {
  }

  // ----- It is lossless -----

  lemma UnparseCons(t: Token, rest: seq<Token>)
    ensures Unparse([t] + rest) == Text(t) + Unparse(rest)
  {
    assert ([t] + rest)[1..] == rest;
  }

  lemma TakeDrop(s: string, n: nat)
    requires n <= |s|
    ensures s[..n] + s[n..] == s
  {
  }

  lemma {:induction false} LexLossless(s: string)
    requires Lex(s).Tokens?
    ensures Unparse(Lex(s).tokens) == s
    decreases |s|
  {
    if s != "" {
      var rest := After(s);
      LexCons(s);
      LexLossless(rest);
      FirstText(s);
      UnparseCons(First(s), Lex(rest).tokens);
      TakeDrop(s, Step(s));
    }
  }

  // Which token lists come out of the lexer: literal runs are as long as possible, a
  // literal % stands only before another % or at the end, and %d before { is a date.
  predicate Canonical(tokens: seq<Token>) {
    if tokens == [] then true
    else Follows(tokens[0], Unparse(tokens[1..])) && Canonical(tokens[1..])
  }

  predicate Follows(t: Token, rest: string) {
    match t
    case Literal(s) =>
      if s == "%" then rest == "" || rest[0] == '%'
      else s != "" && '%' !in s && (rest == "" || rest[0] == '%')
    case Item(c) => c != '%' && (c == 'd' ==> rest == "" || rest[0] != '{')
    case Date(s) => '}' !in s
  }

  lemma FirstFollows(s: string)
    requires Lexable(s)
    ensures Follows(First(s), After(s))
  {
    if s[0] != '%' {
      BeforeIs(s, '%');
    } else if OpensDate(s) {
      BeforeIs(s[3..], '}');
    }
  }

  lemma {:induction false} LexCanonical(s: string)
    requires Lex(s).Tokens?
    ensures Canonical(Lex(s).tokens)
    decreases |s|
  {
    if s != "" {
      FirstFollows(s);
      LexCanonical(After(s));
      LexLossless(After(s));
    }
  }

  lemma {:induction false} BeforeAppend(s: string, c: char, rest: string)
    requires c !in s && (rest == "" || rest[0] == c)
    ensures Before(s + rest, c) == s
  {
    if s == "" {
      assert s + rest == rest;
    } else {
      assert (s + rest)[1..] == s[1..] + rest;
      BeforeAppend(s[1..], c, rest);
    }
  }

  lemma FirstOfLiteral(l: string, rest: string)
    requires Follows(Literal(l), rest)
    ensures var s := l + rest; Lexable(s) && First(s) == Literal(l) && Step(s) == |l|
  {
    if l != "%" {
      BeforeAppend(l, '%', rest);
    }
  }

  lemma FirstOfDate(d: string, rest: string)
    requires Follows(Date(d), rest)
    ensures var s := Text(Date(d)) + rest; Lexable(s) && First(s) == Date(d) && Step(s) == |d| + 4
  {
    var s := Text(Date(d)) + rest;
    assert OpensDate(s);
    assert s[3..] == d + (['}'] + rest);
    BeforeAppend(d, '}', ['}'] + rest);
  }

  // A token in front of text that may follow it is what the lexer finds first.
  lemma FirstOfToken(t: Token, rest: string)
    requires Follows(t, rest)
    ensures var s := Text(t) + rest; Lexable(s) && First(s) == t && After(s) == rest
  {
    match t
    case Literal(l) => FirstOfLiteral(l, rest);
    case Item(c) =>
    case Date(d) => FirstOfDate(d, rest);
  }

  // Lexing inverts writing on canonical lists, so that the accepted strings and the
  // canonical lists correspond one to one.
  lemma {:induction false} LexUnparse(tokens: seq<Token>)
    requires Canonical(tokens)
    ensures Lex(Unparse(tokens)) == Tokens(tokens)
  {
    if tokens != [] {
      var rest := Unparse(tokens[1..]);
      LexUnparse(tokens[1..]);
      FirstOfToken(tokens[0], rest);
      LexCons(Text(tokens[0]) + rest);
      assert [tokens[0]] + tokens[1..] == tokens;
    }
  }

  // ----- When it rejects -----

  // The lexer starts a token at position i.
  predicate Reaches(s: string, i: nat)
    decreases |s|
  {
    i == 0 || (Lexable(s) && Step(s) <= i && Reaches(After(s), i - Step(s)))
  }

  // A date that is opened at i and not closed.
  predicate Open(s: string, i: nat) {
    i <= |s| && OpensDate(s[i..]) && !Closed(s[i..])
  }

  lemma DropDrop(s: string, n: nat, j: nat)
    requires n + j <= |s|
    ensures s[n..][j..] == s[n + j..]
  {
  }

  // It is rejected because of the date that is opened at i.
  predicate RejectedFor(s: string, i: nat) {
    Reaches(s, i) && Open(s, i) && Lex(s) == FormatError(s[i..][3..])
  }

  lemma RejectedNow(s: string)
    requires s != "" && !Lexable(s)
    ensures RejectedFor(s, 0)
  {
    assert s[0..] == s;
  }

  lemma RejectedLater(s: string, j: nat)
    requires Lexable(s) && RejectedFor(After(s), j)
    ensures RejectedFor(s, Step(s) + j)
  {
    LexCons(s);
    DropDrop(s, Step(s), j);
  }

  lemma {:induction false} RejectedSomewhere(s: string)
    requires Lex(s).FormatError?
    ensures exists i: nat :: RejectedFor(s, i)
    decreases |s|
  {
    if !Lexable(s) {
      RejectedNow(s);
    } else {
      LexCons(s);
      RejectedSomewhere(After(s));
      var j: nat :| RejectedFor(After(s), j);
      RejectedLater(s, j);
    }
  }

  lemma {:induction false} OpenIsRejected(s: string, i: nat)
    requires Reaches(s, i) && Open(s, i)
    ensures Lex(s) == FormatError(s[i..][3..])
    decreases |s|
  {
    if i == 0 {
      assert s[0..] == s;
    } else {
      DropDrop(s, Step(s), i - Step(s));
      OpenIsRejected(After(s), i - Step(s));
    }
  }

  // A string is rejected exactly when the lexer reaches a `%d{` with no later `}`, and the
  // error carries what follows it.
  lemma RejectsExactly(s: string, rest: string)
    ensures Lex(s) == FormatError(rest) <==> exists i: nat :: Reaches(s, i) && Open(s, i) && rest == s[i..][3..]
  {
    if Lex(s) == FormatError(rest) {
      RejectedSomewhere(s);
      var i: nat :| RejectedFor(s, i);
      assert Reaches(s, i) && Open(s, i) && rest == s[i..][3..];
    }
    if i: nat :| Reaches(s, i) && Open(s, i) && rest == s[i..][3..] {
      OpenIsRejected(s, i);
    }
  }

  // ----- The loops -----

  lemma BeforeNext(s: string, i: nat, c: char, temp: string)
    requires i < |s| && s[i] != c
    ensures temp + Before(s[i..], c) == temp + [s[i]] + Before(s[i + 1..], c)
  {
    assert s[i..][1..] == s[i + 1..];
  }

  // The characters from i up to the first c.
  method TakeUntil(str: string, start: nat, c: char) returns (temp: string, i: nat)
    requires start <= |str|
    ensures temp == Before(str[start..], c) && i == start + |temp|
  {
    temp, i := "", start;
    while i < |str| && str[i] != c
      invariant start <= i <= |str| && i == start + |temp|
      invariant Before(str[start..], c) == temp + Before(str[i..], c)
    {
      BeforeNext(str, i, c, temp);
      temp := temp + [str[i]];
      i := i + 1;
    }
    BeforeIs(str[i..], c);
    assert temp + "" == temp;
  }

  // One round of the loop at position i: a token and where it ends, unless it is a date
  // that is not closed.
  method ParseOne(str: string, i: nat) returns (r: Parsed, next: nat)
    requires i < |str|
    ensures !Lexable(str[i..]) ==> r == FormatError(str[i..][3..])
    ensures Lexable(str[i..]) ==> r == Tokens([First(str[i..])]) && next == i + Step(str[i..])
  {
    ghost var s := str[i..];
    if str[i] != '%' {
      var temp;
      temp, next := TakeUntil(str, i, '%');
      r := Tokens([Literal(temp)]);
    } else if i + 1 < |str| && str[i + 1] != '%' {
      if i + 2 < |str| && str[i + 1] == 'd' && str[i + 2] == '{' {
        DropDrop(str, i, 3);
        var temp;
        temp, next := TakeUntil(str, i + 3, '}');
        BeforeIs(s[3..], '}');
        if next >= |str| {
          return FormatError(temp), next;
        }
        assert s[3..][|temp|] == '}';
        r, next := Tokens([Date(temp)]), next + 1;
      } else {
        r, next := Tokens([Item(str[i + 1])]), i + 2;
      }
    } else {
      r, next := Tokens([Literal("%")]), i + 1;
    }
  }

  lemma PrependTwice(res: seq<Token>, first: Token, rest: Parsed)
    ensures Prepend(res, Prepend([first], rest)) == Prepend(res + [first], rest)
  {
    if rest.Tokens? {
      assert res + ([first] + rest.tokens) == res + [first] + rest.tokens;
    }
  }

  lemma ParseNext(str: string, i: nat, res: seq<Token>)
    requires i < |str| && Lex(str) == Prepend(res, Lex(str[i..]))
    ensures !Lexable(str[i..]) ==> Lex(str) == FormatError(str[i..][3..])
    ensures Lexable(str[i..]) ==>
              var n := Step(str[i..]);
              i + n <= |str| && Lex(str) == Prepend(res + [First(str[i..])], Lex(str[i + n..]))
  {
    var t := str[i..];
    if Lexable(t) {
      LexCons(t);
      PrependTwice(res, First(t), Lex(After(t)));
      DropDrop(str, i, Step(t));
      assert After(t) == str[i + Step(t)..];
    } else {
      assert t != "" && Lex(t) == FormatError(t[3..]);
    }
  }

  lemma ParseEnd(str: string, res: seq<Token>)
    ensures Prepend([], Lex(str[0..])) == Lex(str)
    ensures Prepend(res, Lex(str[|str|..])) == Tokens(res)
  {
    assert str[0..] == str && str[|str|..] == "";
    assert res + [] == res;
    if Lex(str).Tokens? {
      assert [] + Lex(str).tokens == Lex(str).tokens;
    }
  }

  // What a round at i means for the string as a whole, once `res` has been read.
  method Advance(str: string, i: nat, ghost res: seq<Token>) returns (r: Parsed, next: nat)
    requires i < |str| && Lex(str) == Prepend(res, Lex(str[i..]))
    ensures r.FormatError? ==> r == Lex(str)
    ensures r.Tokens? ==> i < next <= |str| && Lex(str) == Prepend(res + r.tokens, Lex(str[next..]))
  {
    ParseNext(str, i, res);
    r, next := ParseOne(str, i);
  }

  method Parse(str: string) returns (r: Parsed)
    ensures r == Lex(str)
  {
    var res: seq<Token>, i: nat := [], 0;
    ParseEnd(str, res);
    while i < |str|
      invariant i <= |str| && Lex(str) == Prepend(res, Lex(str[i..]))
      decreases |str| - i
    {
      var one, next := Advance(str, i, res);
      if one.FormatError? {
        return one;
      }
      res, i := res + one.tokens, next;
    }
    ParseEnd(str, res);
    return Tokens(res);
  }
}

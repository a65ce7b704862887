/** The lexer: one pass over the text, counting lines and columns. */
module Lexer {
  import opened Ast
  import opened ConditionGrammar
  import opened LexSpec

  /** A token and the line and column of its first character. */
  datatype Placed = Placed(token: Token, line: nat, column: nat)

  function PlacedAt(s: string, l: Lexed): Placed
    requires l.start <= |s|
  {
    Placed(l.token, LineAt(s, l.start), ColumnAt(s, l.start))
  }

  function PlacedAll(s: string, ls: seq<Lexed>): (r: seq<Placed>)
    requires forall i :: 0 <= i < |ls| ==> ls[i].start <= |s|
    ensures |r| == |ls| && forall i :: 0 <= i < |ls| ==> r[i] == PlacedAt(s, ls[i])
  {
    seq(|ls|, i requires 0 <= i < |ls| => PlacedAt(s, ls[i]))
  }

  lemma {:induction false} StartsInside(s: string, p: nat, i: nat)
    requires p <= |s| && i < |LexAll(s, p)|
    ensures LexAll(s, p)[i].start <= |s|
    decreases i
  {
    if i > 0 { StartsInside(s, Next(s, p).1, i - 1); }
  }

  class Lexer {
    const source: string
    var pos: nat
    var line: nat
    var column: nat

    ghost predicate Valid()
      reads this
    {
      pos <= |source| && line == LineAt(source, pos) && column == ColumnAt(source, pos)
    }

    constructor (source: string)
      ensures Valid() && this.source == source && pos == 0
    {
      this.source := source;
      pos, line, column := 0, 1, 1;
    }

    function IsAtEnd(): bool
      reads `pos
    {
      pos >= |source|
    }

    function Peek(): char
      reads `pos
    {
      if IsAtEnd() then '\0' else source[pos]
    }

    method Advance() returns (c: char)
      requires Valid() && pos < |source|
      modifies this
      ensures Valid() && pos == old(pos) + 1 && c == source[old(pos)]
    {
      c := source[pos];
      pos := pos + 1;
      if c == '\n' {
        line, column := line + 1, 1;
      } else {
        column := column + 1;
      }
    }

    method SkipWhitespace()
      requires Valid()
      modifies this
      ensures Valid() && pos == RunEnd(source, old(pos), IsSpace)
    {
      while !IsAtEnd() && IsSpace(Peek())
        invariant Valid() && RunEnd(source, pos, IsSpace) == RunEnd(source, old(pos), IsSpace)
        decreases |source| - pos
      {
        var c := Advance();
      }
    }

    /** The rest of a run of characters of one kind. */
    method TakeWhile(kind: char -> bool) returns (value: string)
      requires Valid()
      modifies this
      ensures Valid() && pos == RunEnd(source, old(pos), kind) && value == source[old(pos)..pos]
    {
      value := "";
      while !IsAtEnd() && kind(Peek())
        invariant Valid() && old(pos) <= pos && value == source[old(pos)..pos]
        invariant RunEnd(source, pos, kind) == RunEnd(source, old(pos), kind)
        decreases |source| - pos
      {
        var c := Advance();
        value := value + [c];
      }
    }

    method ScanStringLiteral() returns (t: Token)
      requires Valid() && pos < |source| && Peek() == '"'
      modifies this
      ensures Valid() && (t, pos) == Scan(source, old(pos))
    {
      var quote := Advance();
      var value := TakeWhile(NotQuote);
      if IsAtEnd() {
        assert value == source[old(pos) + 1..];
        return Token(Invalid, value);
      }
      quote := Advance();
      t := Token(StringLiteral, value);
    }

    method ScanNumber() returns (t: Token)
      requires Valid() && pos < |source| && IsDigit(Peek())
      modifies this
      ensures Valid() && (t, pos) == Scan(source, old(pos))
    {
      var value := TakeWhile(IsDigit);
      t := Token(IntegerLiteral, value);
    }

    method ToUpper(s: string) returns (u: string)
      ensures u == Upper(s)
    {
      u := s;
      for i := 0 to |u|
        invariant |u| == |s|
        invariant forall j :: 0 <= j < |s| ==> u[j] == if j < i then UpperChar(s[j]) else s[j]
      {
        u := u[i := UpperChar(u[i])];
      }
    }

    method ScanIdentifierOrKeyword() returns (t: Token)
      requires Valid() && pos < |source| && (IsAlpha(Peek()) || Peek() == '_')
      modifies this
      ensures Valid() && (t, pos) == Scan(source, old(pos))
    {
      hide IsKeyword;
      var value := TakeWhile(InWord);
      var upper := ToUpper(value);
      if IsKeyword(upper) {
        return Token(Keyword, upper);
      }
      t := Token(IdentifierToken, value);
    }

    method ScanOperator() returns (t: Token)
      requires Valid() && pos < |source| && IsOperatorChar(Peek())
      modifies this
      ensures Valid() && (t, pos) == Scan(source, old(pos))
    {
      var first := Advance();
      if (first == '=' || first == '!' || first == '<' || first == '>') && Peek() == '=' {
        var second := Advance();
        assert source[old(pos)..pos] == [first, second];
        return Token(OperatorToken, [first, second]);
      }
      assert source[old(pos)..pos] == [first];
      t := Token(OperatorToken, [first]);
    }

    method ScanPunctuation() returns (t: Token)
      requires Valid() && pos < |source| && IsPunctuationChar(Peek())
      modifies this
      ensures Valid() && (t, pos) == Scan(source, old(pos))
    {
      var c := Advance();
      t := Token(Punctuation, [c]);
    }

    method NextToken() returns (t: Placed)
      requires Valid()
      modifies this
      ensures Valid() && var (l, e) := Next(source, old(pos)); t == PlacedAt(source, l) && pos == e
    {
      hide Scan, IsKeyword;
      SkipWhitespace();
      if IsAtEnd() {
        return Placed(END, line, column);
      }
      var startLine, startColumn := line, column;
      var current, token := Peek(), END;
      if current == '"' {
        token := ScanStringLiteral();
      } else if IsDigit(current) {
        token := ScanNumber();
      } else if IsAlpha(current) || current == '_' {
        token := ScanIdentifierOrKeyword();
      } else if IsOperatorChar(current) {
        token := ScanOperator();
      } else if IsPunctuationChar(current) {
        token := ScanPunctuation();
      } else {
        token := ScanOther();
      }
      t := Placed(token, startLine, startColumn);
    }

    method ScanOther() returns (t: Token)
      requires Valid() && pos < |source| && !IsSpace(Peek())
      requires Peek() != '"' && !IsDigit(Peek()) && !IsAlpha(Peek()) && Peek() != '_'
      requires !IsOperatorChar(Peek()) && !IsPunctuationChar(Peek())
      modifies this
      ensures Valid() && (t, pos) == Scan(source, old(pos))
    {
      var c := Advance();
      t := Token(Invalid, [c]);
    }

    /** Whether anything but white space is left. */
    method HasNext() returns (r: bool)
      requires Valid()
      ensures r == !AllSpace(source[pos..])
    {
      var p := pos;
      while p < |source|
        invariant pos <= p <= |source| && forall i :: pos <= i < p ==> IsSpace(source[i])
      {
        if !IsSpace(source[p]) {
          assert source[pos..][p - pos] == source[p];
          return true;
        }
        p := p + 1;
      }
      r := false;
    }

    method Tokenize() returns (tokens: seq<Placed>)
      requires Valid()
      modifies this
      ensures Valid()
      ensures forall i :: 0 <= i < |LexAll(source, old(pos))| ==> LexAll(source, old(pos))[i].start <= |source|
      ensures tokens == PlacedAll(source, LexAll(source, old(pos)))
    {
      hide Next, LexAll;
      AllInside(old(pos));
      ghost var all := LexAll(source, old(pos));
      tokens := [];
      while true
        invariant Valid() && |tokens| <= |all| && all[|tokens|..] == LexAll(source, pos)
        invariant tokens == PlacedAll(source, all)[..|tokens|]
        decreases |all| - |tokens|
      {
        LexStep(source, pos);
        var token := NextToken();
        assert all[|tokens|] == all[|tokens|..][0];
        tokens := tokens + [token];
        if token.token.kind == EndOfFile {
          return;
        }
      }
    }

    lemma AllInside(p: nat)
      requires p <= |source|
      ensures forall i :: 0 <= i < |LexAll(source, p)| ==> LexAll(source, p)[i].start <= |source|
    {
      forall i | 0 <= i < |LexAll(source, p)| ensures LexAll(source, p)[i].start <= |source| {
        StartsInside(source, p, i);
      }
    }
  }

  lemma LexStep(s: string, p: nat)
    requires p <= |s|
    ensures var (l, e) := Next(s, p);
      && LexAll(s, p)[0] == l
      && (l.token.kind == EndOfFile ==> |LexAll(s, p)| == 1)
      && (l.token.kind != EndOfFile ==> LexAll(s, p)[1..] == LexAll(s, e))
  {
  }
}

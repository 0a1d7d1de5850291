// The parser as it runs: rules that move a position over the input and put it back when they fail.
// Each rule is proved to read exactly what the grammar says, and to log each entry of the operand rule.
module FilterParser {
  import opened Wrappers
  import opened FilterLexer
  import opened FilterJson
  import opened Text
  import G = FilterGrammar
  import L = FilterLinear
  import P = FilterLanguage

  class Context {
    const stream: string
    var position: nat
    // The unread length at each entry of the operand rule.
    ghost var entered: seq<nat>

    constructor (text: string)
      ensures Valid() && Rest() == text && position == 0 && entered == [] && stream == text
    {
      stream, position, entered := text, 0, [];
    }

    ghost predicate Valid()
      reads this`position
    {
      position <= |stream|
    }

    ghost function Rest(): string
      requires Valid()
      reads this`position
    {
      stream[position..]
    }

    // The rule read what the grammar reads from the start, or failed with it and moved nothing.
    ghost predicate Landed<T>(start: nat, result: Option<T>, expected: Option<G.Parsed<T>>)
      reads this`position
    {
      Valid() &&
      match expected
      case None => result.None? && position == start
      case Some(p) => result == Some(p.value) && Rest() == p.rest
    }

    ghost predicate Moved(start: nat, ok: bool, expected: Option<string>)
      reads this`position
    {
      Valid() &&
      match expected
      case None => !ok && position == start
      case Some(rest) => ok && Rest() == rest
    }

    // ---- Tokens ----

    method Str(word: string) returns (ok: bool)
      requires Valid()
      modifies this`position
      ensures Moved(old(position), ok, G.Str(word, old(Rest())))
    {
      ok := position + |word| <= |stream| && stream[position..position + |word|] == word;
      if ok {
        position := position + |word|;
      }
    }

    method Keyword(word: string) returns (ok: bool)
      requires Valid()
      modifies this`position
      ensures Moved(old(position), ok, G.Keyword(word, old(Rest())))
    {
      assert position + |word| <= |stream| ==> stream[position..position + |word|] == Rest()[..|word|];
      ok := position + |word| <= |stream| && Lower(stream[position..position + |word|]) == word;
      if ok {
        position := position + |word|;
      }
    }

    // One or more spaces.
    method Space() returns (ok: bool)
      requires Valid()
      modifies this`position
      ensures Moved(old(position), ok, G.Space(old(Rest())))
    {
      var start := position;
      while position < |stream| && stream[position] == ' '
        invariant start <= position <= |stream|
        invariant forall i :: start <= i < position ==> stream[i] == ' '
      {
        position := position + 1;
      }
      ok := position > start;
      SpanIs(BlankClass, stream[start..], position - start);
    }

    // A regular expression anchored here matched this many characters; none is no match.
    method Match(length: nat) returns (matched: Option<string>)
      requires Valid() && length <= |Rest()|
      modifies this`position
      ensures Valid()
      ensures if length == 0 then matched.None? && position == old(position)
              else matched == Some(old(Rest())[..length]) && Rest() == old(Rest())[length..]
    {
      if length == 0 {
        return None;
      }
      assert stream[position..position + length] == Rest()[..length];
      matched := Some(stream[position..position + length]);
      position := position + length;
    }

    // ---- Attribute paths ----

    method SubAttribute() returns (r: Option<string>)
      requires Valid()
      modifies this`position
      ensures Landed(old(position), r, G.SubAttribute(old(Rest())))
    {
      var start := position;
      var dot := Str(".");
      if !dot {
        return None;
      }
      ghost var s, n := stream[start..], MatchName(stream[position..]);
      assert s[1..][..n] == s[1..1 + n];
      r := Match(MatchName(stream[position..]));
      if r.None? {
        position := start;
      }
    }

    method AttributePath() returns (r: Option<string>)
      requires Valid()
      modifies this`position
      ensures Landed(old(position), r, G.AttributePath(old(Rest())))
    {
      hide MatchUri, MatchName, G.SubAttribute;
      var start := position;
      var prefix := "";
      var uri := Match(MatchUri(stream[position..]));
      if uri.Some? {
        prefix := uri.value;
      }
      var name := Match(MatchName(stream[position..]));
      if name.None? {
        position := start;
        return None;
      }
      var path := prefix + name.value;
      var sub := SubAttribute();
      if sub.Some? {
        path := path + "." + sub.value;
        assert path == prefix + (name.value + "." + sub.value);
      }
      r := Some(path);
    }

    // ---- Attribute expressions ----

    method Operator() returns (r: Option<G.Op>)
      requires Valid()
      modifies this`position
      ensures Landed(old(position), r, G.FirstOp(G.OPERATORS, old(Rest())))
    {
      var ops := G.OPERATORS;
      ghost var s := Rest();
      for i := 0 to |ops|
        invariant position == old(position)
        invariant G.FirstOp(ops, s) == G.FirstOp(ops[i..], s)
      {
        var ok := Keyword(G.OpWord(ops[i]));
        if ok {
          return Some(ops[i]);
        }
      }
      r := None;
    }

    method LiteralValue() returns (r: Option<G.Literal>)
      requires Valid()
      modifies this`position
      ensures Landed(old(position), r, G.LiteralValue(old(Rest())))
    {
      var start := position;
      var ok := Str("false");
      if ok { return Some(G.Bool(false)); }
      ok := Str("null");
      if ok { return Some(G.Null); }
      ok := Str("true");
      if ok { return Some(G.Bool(true)); }
      var number := Match(MatchNumber(stream[position..]));
      if number.Some? { return Some(G.Number(number.value)); }
      var quoted := Match(MatchString(stream[position..]));
      if quoted.None? { return None; }
      var text := DecodeString(quoted.value);
      if text.None? {
        position := start;
        return None;
      }
      r := Some(G.Quoted(text.value));
    }

    method PresenceExpr() returns (r: Option<G.Node>)
      requires Valid()
      modifies this`position
      ensures Landed(old(position), r, G.PresenceExpr(old(Rest())))
    {
      hide G.AttributePath, G.Keyword, G.Space;
      var start := position;
      var path := AttributePath();
      if path.None? { return None; }
      var ok := Space();
      if ok { ok := Keyword("pr"); }
      if !ok {
        position := start;
        return None;
      }
      r := Some(G.Present(path.value));
    }

    method CompareExpr() returns (r: Option<G.Node>)
      requires Valid()
      modifies this`position
      ensures Landed(old(position), r, G.CompareExpr(old(Rest())))
    {
      hide G.AttributePath, G.Space, G.FirstOp, G.LiteralValue;
      var start := position;
      var path := AttributePath();
      if path.None? { return None; }
      var ok := Space();
      if ok {
        var op := Operator();
        if op.Some? {
          ok := Space();
          if ok {
            var value := LiteralValue();
            if value.Some? {
              return Some(G.Compare(path.value, op.value, value.value));
            }
          }
        }
      }
      position := start;
      r := None;
    }

    method AttributeExpr() returns (r: Option<G.Node>)
      requires Valid()
      modifies this`position
      ensures Landed(old(position), r, G.AttributeExpr(old(Rest())))
    {
      hide G.PresenceExpr, G.CompareExpr;
      r := PresenceExpr();
      if r.None? {
        r := CompareExpr();
      }
    }

    // ---- Filters ----

    // "not" with the spaces after it, if it is there.
    method SkipNot() returns (negated: bool)
      requires Valid()
      modifies this`position
      ensures Valid() && Rest() == G.SkipNot(old(Rest())) && old(position) <= position
      ensures negated <==> G.Keyword("not", old(Rest())).Some?
    {
      hide G.Keyword;
      negated := Keyword("not");
      if negated {
        ghost var s := Rest();
        var _ := Space();
        if !(s != [] && s[0] == ' ') {
          SpanIs(BlankClass, s, 0);
        }
      }
    }

    method Group(inBrackets: bool) returns (r: Option<G.Node>)
      requires Valid()
      modifies this
      ensures Landed(old(position), r, G.Group(old(Rest()), inBrackets))
      ensures entered == old(entered) + L.GroupTrace(old(Rest()), inBrackets)
      decreases |stream| - position, 0
    {
      hide G.Filter, G.Keyword, L.FilterTrace, G.SkipNot;
      var start := position;
      var negated := SkipNot();
      var ok := Str("(");
      if !ok {
        position := start;
        return None;
      }
      var inner := Filter(inBrackets);
      if inner.None? {
        position := start;
        return None;
      }
      ok := Str(")");
      if !ok {
        position := start;
        return None;
      }
      r := Some(if negated then G.Not(inner.value) else inner.value);
    }

    method ValuePathExpr() returns (r: Option<G.Node>)
      requires Valid()
      modifies this
      ensures Landed(old(position), r, G.ValuePathExpr(old(Rest())))
      ensures entered == old(entered) + L.ValuePathTrace(old(Rest()))
      decreases |stream| - position, 0
    {
      hide G.Filter, G.AttributePath, L.FilterTrace;
      var start := position;
      var path := AttributePath();
      if path.None? { return None; }
      var ok := Str("[");
      if !ok {
        position := start;
        return None;
      }
      var inner := Filter(true);
      if inner.None? {
        position := start;
        return None;
      }
      ok := Str("]");
      if !ok {
        position := start;
        return None;
      }
      r := Some(G.ValuePath(path.value, inner.value));
    }

    method Atom(inBrackets: bool) returns (r: Option<G.Node>)
      requires Valid()
      modifies this
      ensures Landed(old(position), r, G.Atom(old(Rest()), inBrackets))
      ensures entered == old(entered) + L.AtomTrace(old(Rest()), inBrackets)
      decreases |stream| - position, 1
    {
      hide G.Group, G.AttributeExpr, G.ValuePathExpr, L.GroupTrace, L.ValuePathTrace;
      entered := entered + [|stream| - position];
      r := Group(inBrackets);
      if r.Some? { return; }
      r := AttributeExpr();
      if r.Some? || inBrackets { return; }
      r := ValuePathExpr();
    }

    // What stands to the right of a connective, if both are there.
    method Connective(word: string) returns (ok: bool)
      requires Valid()
      modifies this`position
      ensures Moved(old(position), ok, G.Connective(word, old(Rest())))
    {
      hide G.Keyword, G.Space;
      var start := position;
      ok := Space();
      if ok { ok := Keyword(word); }
      if ok { ok := Space(); }
      if !ok { position := start; }
    }

    method Conjunction(inBrackets: bool) returns (r: Option<G.Node>)
      requires Valid()
      modifies this
      ensures Landed(old(position), r, G.Conjunction(old(Rest()), inBrackets))
      ensures entered == old(entered) + L.ConjunctionTrace(old(Rest()), inBrackets)
      decreases |stream| - position, 2
    {
      hide G.Atom, G.Connective, L.AtomTrace;
      r := Atom(inBrackets);
      if r.None? { return; }
      var start := position;
      var ok := Connective("and");
      if !ok { return; }
      var right := Conjunction(inBrackets);
      if right.None? {
        position := start;
        return;
      }
      r := Some(G.And(r.value, right.value));
    }

    method Filter(inBrackets: bool) returns (r: Option<G.Node>)
      requires Valid()
      modifies this
      ensures Landed(old(position), r, G.Filter(old(Rest()), inBrackets))
      ensures entered == old(entered) + L.FilterTrace(old(Rest()), inBrackets)
      decreases |stream| - position, 3
    {
      hide G.Conjunction, G.Connective, L.ConjunctionTrace;
      r := Conjunction(inBrackets);
      if r.None? { return; }
      var start := position;
      var ok := Connective("or");
      if !ok { return; }
      var right := Filter(inBrackets);
      if right.None? {
        position := start;
        return;
      }
      r := Some(G.Or(r.value, right.value));
    }
  }

  // Reads a whole filter; an error reports the position where the parser stood.
  // The log of what is still unread whenever the operand parser is entered gets strictly shorter: it is
  // entered at most once per position.
  method Parse(text: string) returns (r: Result<G.Node, nat>, ghost unread: seq<nat>)
    ensures unread == L.FilterTrace(text, false) && L.Descends(unread)
    ensures r.Ok? <==> G.Parse(text).Some?
    ensures r.Ok? ==> r.value == G.Parse(text).value
    ensures forall n :: r == Ok(n) <==> P.Denotes(text, n)
    ensures r.Err? ==> r.error <= |text| && (r.error == |text| ==> text == [])
  {
    var context := new Context(text);
    var node := context.Filter(false);
    unread := context.entered;
    L.LinearParsing(text);
    forall n ensures G.Parse(text) == Some(n) <==> P.Denotes(text, n) {
      P.ParsesExactly(text, n);
    }
    if node.None? || context.position != |text| {
      return Err(context.position), unread;
    }
    r := Ok(node.value);
  }
}

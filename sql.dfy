/** Prepared statements: statement text with `?` placeholders, and the values bound to them. */
module Sql {
  /** A bound parameter. */
  datatype SqlValue = SqlText(text: string) | SqlInt(n: int) | SqlNull

  /** A piece of statement text: literal SQL, or a `?` placeholder. */
  datatype Token = Word(text: string) | Param

  /** The statement text the pieces spell. */
  function Render(ts: seq<Token>): string
    decreases |ts|
  {
    if ts == [] then ""
    else (match ts[0] case Word(w) => w case Param => "?") + Render(ts[1..])
  }

  /** The number of placeholders in a statement. */
  function Params(ts: seq<Token>): nat
    decreases |ts|
  {
    if ts == [] then 0 else (if ts[0] == Param then 1 else 0) + Params(ts[1..])
  }

  lemma {:induction false} ParamsAppend(a: seq<Token>, b: seq<Token>)
    ensures Params(a + b) == Params(a) + Params(b)
    decreases |a|
  {
    if a == [] {
      assert a + b == b;
    } else {
      ParamsAppend(a[1..], b);
      assert (a + b)[0] == a[0];
      assert (a + b)[1..] == a[1..] + b;
    }
  }

  /** Literal statement text. */
  function Literal(text: string): (ts: seq<Token>)
    ensures Params(ts) == 0
  {
    [Word(text)]
  }

  /** Literal statement text followed by one placeholder, as in `title LIKE ?`. */
  function Bound(text: string): (ts: seq<Token>)
    ensures Params(ts) == 1
  {
    var ts := [Word(text), Param];
    assert ts[1..] == [Param] && [Param][1..] == [];
    assert Params([Param]) == 1;
    ts
  }

  /** `parts.join(sep)` over statement pieces. */
  function JoinTokens(parts: seq<seq<Token>>, sep: seq<Token>): seq<Token>
    decreases |parts|
  {
    if |parts| == 0 then []
    else if |parts| == 1 then parts[0]
    else parts[0] + sep + JoinTokens(parts[1..], sep)
  }

  /** Joining pieces of one placeholder each by a separator without any gives one placeholder per piece. */
  lemma {:induction false} JoinParams(parts: seq<seq<Token>>, sep: seq<Token>)
    requires forall i :: 0 <= i < |parts| ==> Params(parts[i]) == 1
    requires Params(sep) == 0
    ensures Params(JoinTokens(parts, sep)) == |parts|
    decreases |parts|
  {
    if |parts| > 1 {
      JoinParams(parts[1..], sep);
      ParamsAppend(parts[0], sep);
      ParamsAppend(parts[0] + sep, JoinTokens(parts[1..], sep));
    }
  }

  /** The `key = ?` pieces of a `SET` list, one per key in order, each with one placeholder. */
  function Assignments<C>(keys: seq<C>, name: C -> string): (fields: seq<seq<Token>>)
    ensures |fields| == |keys|
    ensures forall k :: 0 <= k < |keys| ==> Params(fields[k]) == 1
  {
    seq(|keys|, k requires 0 <= k < |keys| => Bound(name(keys[k]) + " = "))
  }

  /** `UPDATE t SET k1 = ?, ..., kn = ? WHERE key = ?`: one placeholder per assignment and one for the key. */
  lemma UpdateParams(head: string, fields: seq<seq<Token>>, whereKey: string)
    requires forall k :: 0 <= k < |fields| ==> Params(fields[k]) == 1
    ensures Params(Literal(head) + JoinTokens(fields, Literal(", ")) + Bound(whereKey)) == |fields| + 1
  {
    JoinParams(fields, Literal(", "));
    ParamsAppend(Literal(head), JoinTokens(fields, Literal(", ")));
    ParamsAppend(Literal(head) + JoinTokens(fields, Literal(", ")), Bound(whereKey));
  }

  /** The text of a concatenation is the concatenation of the texts. */
  lemma {:induction false} RenderAppend(a: seq<Token>, b: seq<Token>)
    ensures Render(a + b) == Render(a) + Render(b)
    decreases |a|
  {
    if a == [] {
      assert a + b == b;
    } else {
      RenderAppend(a[1..], b);
      assert (a + b)[0] == a[0];
      assert (a + b)[1..] == a[1..] + b;
    }
  }
}

/** When engine/cics/naming.py gives two operands one Java name. */
module CicsNames {
  import opened CicsModel

  // ---- tokens ----

  /** The tokens of an operand in lower case, with `current` read before it. */
  function Tokens(value: string, current: string): seq<string> {
    if value == "" then Pending(current)
    else if !IsAlphanumeric(value[0]) then Pending(current) + Tokens(value[1..], "")
    else Tokens(value[1..], current + [LowerChar(value[0])])
  }

  function Pending(current: string): seq<string> { if current == "" then [] else [current] }

  function Capital(token: string): string { if token == "" then "" else [UpperChar(token[0])] + token[1..] }

  function Join(tokens: seq<string>): string { if tokens == [] then "" else Capital(tokens[0]) + Join(tokens[1..]) }

  predicate IsLetter(c: char) { 'a' <= c <= 'z' }

  predicate IsPlain(c: char) { IsLetter(c) || '0' <= c <= '9' }

  predicate IsToken(t: string) { t != "" && forall i :: 0 <= i < |t| ==> IsPlain(t[i]) }

  predicate AreTokens(ts: seq<string>) { forall i :: 0 <= i < |ts| ==> IsToken(ts[i]) }

  lemma {:induction false} TokensAreTokens(value: string, current: string)
    requires current == "" || IsToken(current)
    ensures AreTokens(Tokens(value, current))
  {
    if value != "" {
      if IsAlphanumeric(value[0]) {
        TokensAreTokens(value[1..], current + [LowerChar(value[0])]);
      } else {
        TokensAreTokens(value[1..], "");
      }
    }
  }

  /** `pascal` joins the capitalized tokens. */
  lemma {:induction false} CapitalizedJoins(value: string, current: string)
    ensures Join(Tokens(value, current)) == Capital(current) + Capitalized(value, current != "")
  {
    if value == "" {
      assert Join(Pending(current)) == Capital(current);
    } else if !IsAlphanumeric(value[0]) {
      CapitalizedJoins(value[1..], "");
      var rest := Tokens(value[1..], "");
      assert (Pending(current) + rest)[|Pending(current)|..] == rest;
    } else {
      var c := LowerChar(value[0]);
      CapitalizedJoins(value[1..], current + [c]);
      assert UpperChar(c) == UpperChar(value[0]);
      assert current != "" ==> (current + [c])[1..] == current[1..] + [c];
    }
  }

  /** A Java name is the capitalized tokens of its operand, or `Unknown` when there are none. */
  lemma PascalJoins(value: string)
    ensures Pascal(value) == if Tokens(value, "") == [] then "Unknown" else Join(Tokens(value, ""))
  {
    CapitalizedJoins(value, "");
    TokensAreTokens(value, "");
    var tokens := Tokens(value, "");
    if tokens != [] { assert IsToken(tokens[0]); }
  }

  // ---- the tokens a name keeps apart ----

  /** A token before others: it takes in the next one unless that starts with a letter, since the name
      cannot tell such a token from the end of the one before it. */
  function Attach(token: string, rest: seq<string>): seq<string> {
    if rest != [] && rest[0] != "" && !IsLetter(rest[0][0]) then [token + rest[0]] + rest[1..] else [token] + rest
  }

  function Glue(tokens: seq<string>): seq<string> { if tokens == [] then [] else Attach(tokens[0], Glue(tokens[1..])) }

  /** Every token but the first starts with a letter. */
  predicate Glued(ts: seq<string>) { AreTokens(ts) && forall i :: 1 <= i < |ts| ==> IsLetter(ts[i][0]) }

  lemma AttachedGlued(t: string, rest: seq<string>)
    requires IsToken(t) && Glued(rest)
    ensures Glued(Attach(t, rest))
  {
  }

  lemma AttachedJoins(t: string, rest: seq<string>)
    requires IsToken(t) && Glued(rest)
    ensures Join(Attach(t, rest)) == Capital(t) + Join(rest)
  {
    hide Glued;
    if rest != [] && rest[0] != "" && !IsLetter(rest[0][0]) {
      var glued := t + rest[0];
      GluedTokens(rest);
      assert ([glued] + rest[1..])[1..] == rest[1..];
      assert glued[1..] == t[1..] + rest[0] && Capital(rest[0]) == rest[0];
    } else {
      assert ([t] + rest)[1..] == rest;
    }
  }

  lemma GluedTokens(ts: seq<string>)
    requires Glued(ts)
    ensures forall i :: 0 <= i < |ts| ==> IsToken(ts[i])
  {
  }

  lemma {:induction false} GlueKeepsName(ts: seq<string>)
    requires AreTokens(ts)
    ensures Glued(Glue(ts)) && Join(Glue(ts)) == Join(ts)
  {
    if ts != [] {
      GlueKeepsName(ts[1..]);
      hide Glued, IsToken, Attach, Capital;
      AttachedGlued(ts[0], Glue(ts[1..]));
      AttachedJoins(ts[0], Glue(ts[1..]));
    }
  }

  predicate IsUpper(c: char) { 'A' <= c <= 'Z' }

  /** Only the first character of a capitalized token can be a capital, and it is one if it is a letter. */
  lemma CapitalPlain(t: string)
    requires IsToken(t)
    ensures |Capital(t)| == |t| && (forall i :: 1 <= i < |t| ==> !IsUpper(Capital(t)[i]))
    ensures IsLetter(t[0]) ==> IsUpper(Capital(t)[0])
  {
    forall i | 1 <= i < |t| ensures Capital(t)[i] == t[i] && IsPlain(t[i]) { }
  }

  lemma JoinHead(ts: seq<string>)
    requires ts != [] && IsToken(ts[0])
    ensures Join(ts) == Capital(ts[0]) + Join(ts[1..]) && |Join(ts)| >= |ts[0]| && Join(ts)[0] == Capital(ts[0])[0]
  {
    CapitalPlain(ts[0]);
    hide Capital;
  }

  /** In a joined name the second token starts at the first capital after the start. */
  lemma FirstToken(ts: seq<string>)
    requires Glued(ts) && ts != []
    ensures var n := |ts[0]|; var name := Join(ts);
      && n <= |name| && name[..n] == Capital(ts[0]) && name[n..] == Join(ts[1..])
      && (forall i :: 1 <= i < n ==> !IsUpper(name[i])) && (n < |name| <==> ts[1..] != [])
      && (n < |name| ==> IsUpper(name[n]))
  {
    var rest := ts[1..];
    JoinHead(ts);
    CapitalPlain(ts[0]);
    assert rest != [] ==> rest[0] == ts[1] && IsToken(ts[1]) && IsLetter(ts[1][0]);
    assert rest == [] ==> Join(rest) == "";
    hide Join, Capital, IsToken, Glued, IsUpper;
    if rest != [] {
      JoinHead(rest);
      CapitalPlain(rest[0]);
      TokenNotEmpty(rest[0]);
    }
  }

  lemma TokenNotEmpty(t: string)
    requires IsToken(t)
    ensures t != ""
  {
  }

  lemma CapitalInjective(t: string, u: string)
    requires IsToken(t) && IsToken(u) && Capital(t) == Capital(u)
    ensures t == u
  {
    assert t == [t[0]] + t[1..] && u == [u[0]] + u[1..];
    assert Capital(t)[1..] == t[1..] && Capital(u)[1..] == u[1..];
    assert Capital(t)[0] == UpperChar(t[0]) && Capital(u)[0] == UpperChar(u[0]);
  }

  lemma {:induction false} JoinInjective(ts: seq<string>, us: seq<string>)
    requires Glued(ts) && Glued(us) && Join(ts) == Join(us)
    ensures ts == us
  {
    if ts != [] { FirstToken(ts); }
    if us != [] { FirstToken(us); }
    if ts != [] && us != [] {
      var n, m := |ts[0]|, |us[0]|;
      assert n == m;
      CapitalInjective(ts[0], us[0]);
      JoinInjective(ts[1..], us[1..]);
      assert ts == [ts[0]] + ts[1..] && us == [us[0]] + us[1..];
    }
  }

  /** What of an operand its Java name keeps. */
  function NameParts(value: string): seq<string> {
    var parts := Glue(Tokens(value, ""));
    if parts == [] then ["unknown"] else parts
  }

  lemma NameOfParts(value: string)
    ensures Glued(NameParts(value)) && Join(NameParts(value)) == Pascal(value)
  {
    hide Glue, Tokens, Capitalized;
    TokensAreTokens(value, "");
    CapitalizedJoins(value, "");
    GlueKeepsName(Tokens(value, ""));
    var parts := Glue(Tokens(value, ""));
    if parts == [] {
      assert Join(["unknown"]) == Capital("unknown") + Join([]) == "Unknown";
    } else {
      JoinHead(parts);
    }
  }

  /** Two operands get one Java name exactly when they have the same tokens in lower case, a token that
      starts with a digit being read as part of the one before it, and no token as `unknown`. */
  lemma SameNameExactly(x: string, y: string)
    ensures Pascal(x) == Pascal(y) <==> NameParts(x) == NameParts(y)
  {
    NameOfParts(x);
    NameOfParts(y);
    hide Pascal, NameParts, Glued, Join;
    if Pascal(x) == Pascal(y) { JoinInjective(NameParts(x), NameParts(y)); }
  }

  /** Separators do not separate names. */
  lemma SeparatorsCollide()
    ensures Pascal("A-B") == Pascal("A_B") == "AB" && Pascal("AB") == "Ab"
  {
    var x, y, z := "A-B", "A_B", "AB";
    assert x[1..] == "-B" && x[1..][1..] == "B" && y[1..] == "_B" && y[1..][1..] == "B" && z[1..] == "B"
      && "B"[1..] == "";
    assert Capitalized("B", false) == "B" && Capitalized("B", true) == "b";
    assert Capitalized("-B", true) == "B" && Capitalized("_B", true) == "B";
  }
}

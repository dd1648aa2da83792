/** Expansion of ${NAME} and ${NAME:-default} in configuration trees. */
module EnvExpansion {
  import opened Common

  type Env = map<string, string>

  // ---------------------------------------------------------------- one string

  function IndexOf(s: string, c: char): (r: Option<nat>)
    ensures r.Some? ==> r.value < |s| && s[r.value] == c && c !in s[..r.value]
    ensures r.None? ==> c !in s
  {
    if s == "" then None
    else if s[0] == c then Some(0)
    else
      match IndexOf(s[1..], c)
      case None => None
      case Some(i) => assert s[..i + 1] == [s[0]] + s[1..][..i]; Some(i + 1)
  }

  // The expression of a placeholder that starts here: "${", one or more characters other than "}", and "}".
  function Match(s: string): Option<string> {
    if |s| >= 2 && s[0] == '$' && s[1] == '{' then
      match IndexOf(s[2..], '}')
      case None => None
      case Some(i) => if i == 0 then None else Some(s[2..2 + i])
    else None
  }

  // The position of the first ":-".
  function FirstDash(e: string): (r: Option<nat>)
    ensures r.Some? ==> r.value + 2 <= |e| && e[r.value..r.value + 2] == ":-"
  {
    if |e| < 2 then None
    else if e[..2] == ":-" then Some(0)
    else
      match FirstDash(e[1..])
      case None => None
      case Some(i) =>
        assert e[1..][i] == e[i + 1] && e[1..][i + 1] == e[i + 2];
        assert e[i + 1..i + 3] == e[1..][i..i + 2]; Some(i + 1)
  }

  function NameOf(e: string): string {
    match FirstDash(e) case None => e case Some(i) => e[..i]
  }

  function DefaultOf(e: string): string {
    match FirstDash(e) case None => "" case Some(i) => e[i + 2..]
  }

  function Replacement(env: Env, e: string): string {
    if NameOf(e) in env then env[NameOf(e)] else DefaultOf(e)
  }

  // Replace every placeholder, leftmost first, never looking at what was substituted.
  function Expand(env: Env, s: string): string {
    if s == "" then ""
    else
      match Match(s)
      case Some(e) => Replacement(env, e) + Expand(env, s[|e| + 3..])
      case None => [s[0]] + Expand(env, s[1..])
  }

  // No complete placeholder starts anywhere in s.
  ghost predicate NoPlaceholder(s: string) {
    forall i :: 0 <= i < |s| ==> Match(s[i..]).None?
  }

  lemma {:induction false} NoPlaceholderTail(s: string)
    requires s != "" && NoPlaceholder(s)
    ensures NoPlaceholder(s[1..])
  {
    forall i | 0 <= i < |s[1..]| ensures Match(s[1..][i..]).None? {
      assert s[1..][i..] == s[i + 1..];
    }
  }

  lemma {:induction false} PlainTextUnchanged(env: Env, s: string)
    requires NoPlaceholder(s)
    ensures Expand(env, s) == s
  {
    if s != "" {
      assert s[0..] == s;
      NoPlaceholderTail(s);
      PlainTextUnchanged(env, s[1..]);
    }
  }

  // The name in the first placeholder of s, if there is one.
  function FirstName(s: string): Option<string> {
    if s == "" then None
    else match Match(s) case Some(e) => Some(NameOf(e)) case None => FirstName(s[1..])
  }

  lemma {:induction false} FirstNameIff(s: string)
    ensures FirstName(s).None? <==> NoPlaceholder(s)
  {
    if s != "" {
      assert s[0..] == s;
      FirstNameIff(s[1..]);
      if NoPlaceholder(s) {
        NoPlaceholderTail(s);
      } else if Match(s).None? {
        var i :| 0 <= i < |s| && Match(s[i..]).Some?;
        assert s[i..] == s[1..][i - 1..];
      }
    }
  }

  lemma {:induction false} LongValueShows(env: Env, s: string)
    requires FirstName(s).Some? && FirstName(s).value in env
    ensures |Expand(env, s)| >= |env[FirstName(s).value]|
  {
    if Match(s).None? {
      LongValueShows(env, s[1..]);
    }
  }

  // A text is left alone in every environment exactly when it holds no complete placeholder.
  lemma UnchangedIffNoPlaceholder(s: string)
    ensures (forall env: Env :: Expand(env, s) == s) <==> NoPlaceholder(s)
  {
    if NoPlaceholder(s) {
      forall env: Env ensures Expand(env, s) == s { PlainTextUnchanged(env, s); }
    } else {
      FirstNameIff(s);
      var env: Env := map[FirstName(s).value := s + "x"];
      LongValueShows(env, s);
      assert Expand(env, s) != s;
    }
  }

  // ---------------------------------------------------------------- idempotence

  // The texts substituted while expanding s, in order.
  function Substituted(env: Env, s: string): seq<string> {
    if s == "" then []
    else
      match Match(s)
      case Some(e) => [Replacement(env, e)] + Substituted(env, s[|e| + 3..])
      case None => Substituted(env, s[1..])
  }

  // A "${" that is cut off, or that anything but "}" follows.
  predicate OpenBrace(t: string) {
    exists i :: 0 <= i < |t| - 1 && t[i] == '$' && t[i + 1] == '{' && (i + 2 == |t| || t[i + 2] != '}')
  }

  // A text that completes no placeholder wherever it is put: not empty, not ending in "$", and leaving no "${" open
  // even if a "$" comes before it.
  predicate Safe(v: string) {
    v != "" && v[|v| - 1] != '$' && !OpenBrace("$" + v)
  }

  ghost predicate SafeSubstitutions(env: Env, s: string) {
    forall v :: v in Substituted(env, s) ==> Safe(v)
  }

  lemma {:induction false} NoBraceNoMatch(s: string)
    requires '}' !in s
    ensures NoPlaceholder(s)
  {
    forall i | 0 <= i < |s| ensures Match(s[i..]).None? {
      if |s[i..]| >= 2 { assert forall c :: c in s[i..][2..] ==> c in s; }
    }
  }

  // Safe text shows no "{" to a "$" before it that "}" does not follow.
  lemma {:induction false} SafeStart(v: string)
    requires Safe(v) && v[0] == '{'
    ensures |v| > 1 && v[1] == '}'
  {
    var t := "$" + v;
    assert t[0] == '$' && t[1] == '{' && (|v| > 1 ==> t[2] == v[1]);
  }

  // A character that begins no placeholder begins none in the expanded text either.
  lemma {:induction false} HeadStaysPlain(env: Env, s: string)
    requires s != "" && Match(s).None? && SafeSubstitutions(env, s[1..])
    ensures Match([s[0]] + Expand(env, s[1..])).None?
  {
    var rest := s[1..];
    var out := Expand(env, rest);
    if s[0] == '$' && out != "" && out[0] == '{' {
      match Match(rest) {
        case Some(e) =>
          assert Replacement(env, e) in Substituted(env, rest);
          SafeStart(Replacement(env, e));
        case None =>
          assert rest[0] == '{' && out == ['{'] + Expand(env, rest[1..]);
          BraceStaysPlain(env, s);
      }
    }
  }

  // The same for a "${" with which no placeholder begins.
  lemma {:induction false} BraceStaysPlain(env: Env, s: string)
    requires |s| >= 2 && s[0] == '$' && s[1] == '{' && Match(s).None?
    ensures Match("${" + Expand(env, s[2..])).None?
  {
    var tail := s[2..];
    assert ("${" + Expand(env, tail))[2..] == Expand(env, tail);
    if '}' !in tail {
      NoBraceNoMatch(tail);
      PlainTextUnchanged(env, tail);
    } else {
      assert tail[0] == '}';
    }
  }

  lemma PrependPlain(head: string, tail: string)
    requires NoPlaceholder(tail)
    requires forall i :: 0 <= i < |head| ==> Match((head + tail)[i..]).None?
    ensures NoPlaceholder(head + tail)
  {
    forall i | |head| <= i < |head + tail| ensures Match((head + tail)[i..]).None? {
      assert (head + tail)[i..] == tail[i - |head|..];
    }
  }

  lemma {:induction false} PrependSafe(v: string, tail: string)
    requires Safe(v) && NoPlaceholder(tail)
    ensures NoPlaceholder(v + tail)
  {
    var t := "$" + v;
    forall i | 0 <= i < |v| ensures Match((v + tail)[i..]).None? {
      var rest := (v + tail)[i..];
      assert rest[0] == v[i] == t[i + 1];
      if v[i] == '$' {
        assert i + 1 < |v| && rest[1] == v[i + 1] == t[i + 2];
        if v[i + 1] == '{' {
          assert i + 3 < |t| && t[i + 3] == '}';
          assert rest[2..][0] == '}';
        }
      }
    }
    PrependPlain(v, tail);
  }

  // If every substituted text is safe, the result holds no placeholder at all, not even one joined from its pieces.
  lemma {:induction false} SafeResult(env: Env, s: string)
    requires SafeSubstitutions(env, s)
    ensures NoPlaceholder(Expand(env, s))
  {
    if s != "" {
      match Match(s) {
        case Some(e) =>
          SafeResult(env, s[|e| + 3..]);
          PrependSafe(Replacement(env, e), Expand(env, s[|e| + 3..]));
        case None =>
          var tail := Expand(env, s[1..]);
          SafeResult(env, s[1..]);
          HeadStaysPlain(env, s);
          assert ([s[0]] + tail)[0..] == [s[0]] + tail;
          PrependPlain([s[0]], tail);
      }
    }
  }

  // So expanding again, in any environment, changes nothing.
  lemma {:induction false} ExpandIdempotent(env: Env, again: Env, s: string)
    requires SafeSubstitutions(env, s)
    ensures Expand(again, Expand(env, s)) == Expand(env, s)
  {
    SafeResult(env, s);
    PlainTextUnchanged(again, Expand(env, s));
  }

  // Expanding twice is expanding once, whenever v is all that is substituted.
  ghost predicate IdempotentWith(v: string) {
    forall env: Env, s: string :: (forall u :: u in Substituted(env, s) ==> u == v) ==>
      Expand(env, Expand(env, s)) == Expand(env, s)
  }

  // The exact condition on substituted text: safe text never harms idempotence, any other text does in some
  // environment and some configuration text.
  lemma {:induction false} IdempotentIffSafe(v: string)
    ensures IdempotentWith(v) <==> Safe(v)
  {
    if Safe(v) {
      forall env: Env, s: string | forall u :: u in Substituted(env, s) ==> u == v
        ensures Expand(env, Expand(env, s)) == Expand(env, s)
      {
        ExpandIdempotent(env, env, s);
      }
    } else {
      var env, s := UnsafeBreaks(v);
    }
  }

  // ---- texts that an unsafe value breaks

  // A configuration text in which the variable x does harm when its value v is not safe, and its expansion.
  function Breakable(v: string, x: char): string {
    if v == "" then "$${" + [x] + "}{Y}"
    else if v[|v| - 1] == '$' then "${" + [x] + "}{Y}"
    else "$${" + [x] + "}Y}"
  }

  function Broken(v: string): string {
    if v == "" then "${Y}" else if v[|v| - 1] == '$' then v + "{Y}" else "$" + v + "Y}"
  }

  lemma {:induction false} BrokenHasPlaceholder(v: string)
    requires !Safe(v)
    ensures !NoPlaceholder(Broken(v))
  {
    var t := Broken(v);
    if v == "" {
      assert t[0..] == t && Match(t) == Some("Y") by { MatchOne(t, "Y"); }
    } else if v[|v| - 1] == '$' {
      var rest := t[|v| - 1..];
      assert rest == "${Y}" && Match(rest) == Some("Y") by { MatchOne(rest, "Y"); }
    } else {
      var u := "$" + v;
      var i :| 0 <= i < |u| - 1 && u[i] == '$' && u[i + 1] == '{' && (i + 2 == |u| || u[i + 2] != '}');
      var rest := t[i..];
      assert rest[0] == '$' && rest[1] == '{' && rest[2] != '}';
      assert rest[2..][|rest| - 3] == '}' && rest[2..][0] == rest[2];
      assert Match(rest).Some?;
    }
  }

  lemma {:induction false} BreakableExpands(env: Env, v: string, x: char)
    requires x != '}' && [x] in env && env[[x]] == v
    ensures Expand(env, Breakable(v, x)) == Broken(v)
    ensures forall u :: u in Substituted(env, Breakable(v, x)) ==> u == v
  {
    var s := Breakable(v, x);
    PlainTails(env);
    if v != "" && v[|v| - 1] == '$' {
      SubstituteOne(env, s, [x], "{Y}");
    } else {
      OneCharacter(env, s);
      SubstituteOne(env, s[1..], [x], if v == "" then "{Y}" else "Y}");
    }
  }

  // The variable is given a name other than the one the broken text asks for, and that one a long value.
  lemma {:induction false} UnsafeBreaks(v: string) returns (env: Env, s: string)
    requires !Safe(v)
    ensures forall u :: u in Substituted(env, s) ==> u == v
    ensures Expand(env, Expand(env, s)) != Expand(env, s)
  {
    BrokenHasPlaceholder(v);
    FirstNameIff(Broken(v));
    var name := FirstName(Broken(v)).value;
    var x := if name == "X" then 'Z' else 'X';
    env, s := map[[x] := v, name := Broken(v) + "x"], Breakable(v, x);
    BreakableExpands(env, v, x);
    LongValueShows(env, Broken(v));
  }

  // Three instances: an empty value, one that ends in "$" and one that begins with "{" complete a placeholder, which
  // a second expansion replaces by the value of Y.
  lemma {:induction false} EmptyValueJoins(env: Env)
    requires "X" in env && env["X"] == "" && "Y" in env && env["Y"] != "${Y}"
    ensures Expand(env, "$${X}{Y}") == "${Y}" && Expand(env, Expand(env, "$${X}{Y}")) == env["Y"] != "${Y}"
  {
    assert Breakable("", 'X') == "$${X}{Y}";
    BreakableExpands(env, "", 'X');
    PlaceholderAlone(env);
  }

  lemma {:induction false} DollarValueJoins(env: Env)
    requires "X" in env && env["X"] == "$" && "Y" in env && env["Y"] != "${Y}"
    ensures Expand(env, "${X}{Y}") == "${Y}" && Expand(env, Expand(env, "${X}{Y}")) == env["Y"] != "${Y}"
  {
    assert Breakable("$", 'X') == "${X}{Y}" && Broken("$") == "${Y}";
    BreakableExpands(env, "$", 'X');
    PlaceholderAlone(env);
  }

  lemma {:induction false} BraceValueJoins(env: Env)
    requires "X" in env && env["X"] == "{" && "Y" in env && env["Y"] != "${Y}"
    ensures Expand(env, "$${X}Y}") == "${Y}" && Expand(env, Expand(env, "$${X}Y}")) == env["Y"] != "${Y}"
  {
    assert Breakable("{", 'X') == "$${X}Y}" && Broken("{") == "${Y}";
    BreakableExpands(env, "{", 'X');
    PlaceholderAlone(env);
  }

  lemma {:induction false} PlaceholderAlone(env: Env)
    requires "Y" in env
    ensures Expand(env, "${Y}") == env["Y"]
  {
    PlainTails(env);
    SubstituteOne(env, "${Y}", "Y", "");
  }

  lemma PlainTails(env: Env)
    ensures Expand(env, "{Y}") == "{Y}" && Expand(env, "Y}") == "Y}" && Expand(env, "") == ""
    ensures Substituted(env, "{Y}") == [] && Substituted(env, "Y}") == [] && Substituted(env, "") == []
  {
    OneCharacter(env, "{Y}");
    OneCharacter(env, "Y}");
    OneCharacter(env, "}");
    assert "{Y}"[1..] == "Y}" && "Y}"[1..] == "}" && "}"[1..] == "";
  }

  lemma {:induction false} OneCharacter(env: Env, s: string)
    ensures (s != "" && (|s| < 2 || s[0] != '$' || s[1] != '{')) ==>
      Expand(env, s) == [s[0]] + Expand(env, s[1..]) &&
      Substituted(env, s) == Substituted(env, s[1..])
  {
  }

  lemma {:induction false} SubstituteOne(env: Env, s: string, name: string, tail: string)
    requires |s| >= 4 && s[0] == '$' && s[1] == '{' && s[2] != '}' && s[3] == '}'
    requires name == [s[2]] && tail == s[4..] && name in env
    ensures Expand(env, s) == env[name] + Expand(env, tail)
    ensures Substituted(env, s) == [env[name]] + Substituted(env, tail)
  {
    MatchOne(s, name);
    assert FirstDash(name) == None;
  }

  lemma MatchOne(s: string, name: string)
    requires |s| >= 4 && s[0] == '$' && s[1] == '{' && s[2] != '}' && s[3] == '}' && name == [s[2]]
    ensures Match(s) == Some(name)
  {
    var rest := s[2..];
    assert rest[0] == s[2] && rest[1] == '}';
    IndexOfSecond(rest);
    assert s[2..3] == name;
  }

  lemma {:induction false} IndexOfSecond(s: string)
    requires |s| >= 2 && s[0] != '}' && s[1] == '}'
    ensures IndexOf(s, '}') == Some(1)
  {
    assert s[1..][0] == '}';
  }

  // ---------------------------------------------------------------- configuration trees

  datatype Value = Str(s: string) | List(items: seq<Value>) | Dict(fields: seq<Field>) | Other(n: int)
  datatype Field = Field(key: string, value: Value)

  function ExpandValue(env: Env, v: Value): Value
    decreases v
  {
    match v
    case Str(s) => Str(Expand(env, s))
    case List(items) => List(ExpandItems(env, items))
    case Dict(fields) => Dict(ExpandFields(env, fields))
    case Other(_) => v
  }

  function ExpandItems(env: Env, items: seq<Value>): seq<Value>
    decreases items
  {
    if items == [] then [] else [ExpandValue(env, items[0])] + ExpandItems(env, items[1..])
  }

  function ExpandFields(env: Env, fields: seq<Field>): seq<Field>
    decreases fields
  {
    if fields == [] then []
    else [Field(fields[0].key, ExpandValue(env, fields[0].value))] + ExpandFields(env, fields[1..])
  }

  // The same tree but for the text of its strings: same kinds, same lengths, same keys in the same order.
  ghost predicate SameShape(v: Value, w: Value)
    decreases v
  {
    match v
    case Str(_) => w.Str?
    case List(items) =>
      w.List? && |w.items| == |items| && forall i :: 0 <= i < |items| ==> SameShape(items[i], w.items[i])
    case Dict(fields) =>
      w.Dict? && |w.fields| == |fields| &&
      forall i :: 0 <= i < |fields| ==>
          fields[i].key == w.fields[i].key && SameShape(fields[i].value, w.fields[i].value)
    case Other(_) => w == v
  }

  lemma {:induction false} ItemsAt(env: Env, items: seq<Value>)
    ensures |ExpandItems(env, items)| == |items|
    ensures forall i :: 0 <= i < |items| ==> ExpandItems(env, items)[i] == ExpandValue(env, items[i])
  {
    if items != [] { ItemsAt(env, items[1..]); }
  }

  lemma {:induction false} FieldsAt(env: Env, fields: seq<Field>)
    ensures |ExpandFields(env, fields)| == |fields|
    ensures forall i :: 0 <= i < |fields| ==>
              ExpandFields(env, fields)[i] == Field(fields[i].key, ExpandValue(env, fields[i].value))
  {
    if fields != [] { FieldsAt(env, fields[1..]); }
  }

  lemma {:induction false} ShapePreserved(env: Env, v: Value)
    ensures SameShape(v, ExpandValue(env, v))
    decreases v
  {
    match v
    case Str(_) =>
    case List(items) =>
      ItemsAt(env, items);
      forall i | 0 <= i < |items|
        ensures SameShape(items[i], ExpandItems(env, items)[i]) { ShapePreserved(env, items[i]); }
    case Dict(fields) =>
      FieldsAt(env, fields);
      forall i | 0 <= i < |fields| ensures SameShape(fields[i].value, ExpandFields(env, fields)[i].value) {
        ShapePreserved(env, fields[i].value);
      }
    case Other(_) =>
  }

  // A property of every string of a tree.
  ghost predicate AllStrings(v: Value, p: string -> bool)
    decreases v
  {
    match v
    case Str(s) => p(s)
    case List(items) => forall i :: 0 <= i < |items| ==> AllStrings(items[i], p)
    case Dict(fields) => forall i :: 0 <= i < |fields| ==> AllStrings(fields[i].value, p)
    case Other(_) => true
  }

  // A tree is left alone in every environment exactly when none of its strings holds a complete placeholder.
  lemma {:induction false} TreeUnchangedIff(v: Value)
    ensures (forall env: Env :: ExpandValue(env, v) == v) <==> AllStrings(v, NoPlaceholder)
    decreases v
  {
    if AllStrings(v, NoPlaceholder) {
      forall env: Env ensures ExpandValue(env, v) == v { PlainTreeUnchanged(env, v); }
    } else {
      var env := ChangingEnv(v);
    }
  }

  lemma {:induction false} PlainTreeUnchanged(env: Env, v: Value)
    requires AllStrings(v, NoPlaceholder)
    ensures ExpandValue(env, v) == v
    decreases v
  {
    match v
    case Str(s) => PlainTextUnchanged(env, s);
    case List(items) =>
      ItemsAt(env, items);
      forall i | 0 <= i < |items| ensures ExpandValue(env, items[i]) == items[i] { PlainTreeUnchanged(env, items[i]); }
    case Dict(fields) =>
      FieldsAt(env, fields);
      forall i | 0 <= i < |fields| ensures ExpandValue(env, fields[i].value) == fields[i].value {
        PlainTreeUnchanged(env, fields[i].value);
      }
      assert ExpandFields(env, fields) == fields;
    case Other(_) =>
  }

  lemma {:induction false} ChangingEnv(v: Value) returns (env: Env)
    requires !AllStrings(v, NoPlaceholder)
    ensures ExpandValue(env, v) != v
    decreases v
  {
    match v
    case Str(s) =>
      UnchangedIffNoPlaceholder(s);
      env :| Expand(env, s) != s;
    case List(items) =>
      var i :| 0 <= i < |items| && !AllStrings(items[i], NoPlaceholder);
      env := ChangingEnv(items[i]);
      ItemsAt(env, items);
    case Dict(fields) =>
      var i :| 0 <= i < |fields| && !AllStrings(fields[i].value, NoPlaceholder);
      env := ChangingEnv(fields[i].value);
      FieldsAt(env, fields);
    case Other(_) => assert false;
  }

  // Expanding twice, in any second environment, is expanding once, when every substituted text is safe.
  lemma {:induction false} ExpandValueIdempotent(env: Env, again: Env, v: Value)
    requires AllStrings(v, s => SafeSubstitutions(env, s))
    ensures ExpandValue(again, ExpandValue(env, v)) == ExpandValue(env, v)
    decreases v
  {
    match v
    case Str(s) => ExpandIdempotent(env, again, s);
    case List(items) =>
      var once := ExpandItems(env, items);
      ItemsAt(env, items);
      ItemsAt(again, once);
      forall i | 0 <= i < |items| ensures ExpandValue(again, once[i]) == once[i] {
        ExpandValueIdempotent(env, again, items[i]);
      }
      assert ExpandItems(again, once) == once;
    case Dict(fields) =>
      var once := ExpandFields(env, fields);
      FieldsAt(env, fields);
      FieldsAt(again, once);
      forall i | 0 <= i < |fields| ensures ExpandValue(again, once[i].value) == once[i].value {
        ExpandValueIdempotent(env, again, fields[i].value);
      }
      assert ExpandFields(again, once) == once;
    case Other(_) =>
  }
}

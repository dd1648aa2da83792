/** What a placeholder becomes, stated on the text and the environment alone, for texts and for whole trees. */
module EnvPlaceholders {
  import opened Common
  import opened EnvExpansion

  // ---------------------------------------------------------------- texts

  // ":-" does not occur in it.
  predicate Undivided(name: string) {
    forall k :: 0 <= k < |name| - 1 ==> !(name[k] == ':' && name[k + 1] == '-')
  }

  // In this text no placeholder begins before position n: a "${" there is followed at once by "}".
  predicate NoneBefore(n: nat, text: string) {
    forall i :: 0 <= i < n && i + 2 < |text| && text[i] == '$' && text[i + 1] == '{' ==> text[i + 2] == '}'
  }

  // A placeholder with a default becomes the value of its variable, or the default when that is not set.
  lemma {:induction false} DefaultApplies(env: Env, pre: string, name: string, d: string, post: string)
    requires Undivided(name) && '}' !in name && '}' !in d
    requires NoneBefore(|pre|, pre + "${" + name + ":-" + d + "}" + post)
    ensures Expand(env, pre + "${" + name + ":-" + d + "}" + post) ==
        pre + (if name in env then env[name] else d) + Expand(env, post)
  {
    FirstDivides(name, d);
    WholeText(pre, name, d, post);
    Replaced(env, pre, name + ":-" + d, post, if name in env then env[name] else d);
  }

  // A placeholder without one becomes the value of its variable, or nothing when that is not set.
  lemma {:induction false} VariableApplies(env: Env, pre: string, name: string, post: string)
    requires name != "" && Undivided(name) && '}' !in name
    requires NoneBefore(|pre|, pre + "${" + name + "}" + post)
    ensures Expand(env, pre + "${" + name + "}" + post) ==
        pre + (if name in env then env[name] else "") + Expand(env, post)
  {
    NothingDivides(name);
    Replaced(env, pre, name, post, if name in env then env[name] else "");
  }

  lemma {:induction false} WholeText(pre: string, name: string, d: string, post: string)
    ensures pre + "${" + name + ":-" + d + "}" + post == pre + "${" + (name + ":-" + d) + "}" + post
    ensures (name + ":-" + d)[..|name|] == name && (name + ":-" + d)[|name| + 2..] == d
  {
  }

  lemma {:induction false} Replaced(env: Env, pre: string, e: string, post: string, value: string)
    requires e != "" && '}' !in e && Replacement(env, e) == value
    requires NoneBefore(|pre|, pre + "${" + e + "}" + post)
    ensures Expand(env, pre + "${" + e + "}" + post) == pre + value + Expand(env, post)
  {
    var rest := "${" + e + "}" + post;
    assert pre + "${" + e + "}" + post == pre + rest;
    AtStart(env, e, post);
    AfterText(env, pre, rest, value + Expand(env, post));
  }

  lemma {:induction false} FirstDivides(name: string, d: string)
    requires Undivided(name)
    ensures FirstDash(name + ":-" + d) == Some(|name|)
  {
    var e := name + ":-" + d;
    if name == "" {
      assert e[..2] == ":-";
    } else {
      assert e[1..] == name[1..] + ":-" + d;
      FirstDivides(name[1..], d);
      assert |name| > 1 ==> e[1] == name[1];
      assert e[..2][0] == name[0] && (|name| == 1 ==> e[..2][1] == ':');
    }
  }

  lemma {:induction false} NothingDivides(name: string)
    requires Undivided(name)
    ensures FirstDash(name) == None
  {
    if |name| >= 2 {
      assert name[..2][0] == name[0] && name[..2][1] == name[1];
      NothingDivides(name[1..]);
    }
  }

  lemma {:induction false} FirstBrace(e: string, post: string)
    requires '}' !in e
    ensures IndexOf(e + "}" + post, '}') == Some(|e|)
  {
    var s := e + "}" + post;
    if e != "" {
      assert s[1..] == e[1..] + "}" + post;
      FirstBrace(e[1..], post);
    }
  }

  lemma {:induction false} MatchHere(e: string, post: string)
    requires e != "" && '}' !in e
    ensures Match("${" + e + "}" + post) == Some(e)
  {
    var s := "${" + e + "}" + post;
    assert s[2..] == e + "}" + post;
    FirstBrace(e, post);
    assert s[2..2 + |e|] == e;
  }

  lemma {:induction false} AtStart(env: Env, e: string, post: string)
    requires e != "" && '}' !in e
    ensures Expand(env, "${" + e + "}" + post) == Replacement(env, e) + Expand(env, post)
  {
    var s := "${" + e + "}" + post;
    MatchHere(e, post);
    assert s[|e| + 3..] == post;
  }

  lemma {:induction false} AfterText(env: Env, pre: string, rest: string, out: string)
    requires NoneBefore(|pre|, pre + rest) && Expand(env, rest) == out
    ensures Expand(env, pre + rest) == pre + out
  {
    if pre == "" {
      assert pre + rest == rest && pre + out == out;
    } else {
      AfterFirst(pre, rest, out);
      NoMatchHere(pre + rest, |pre|);
      TailKeeps(pre + rest, |pre|);
      AfterText(env, pre[1..], rest, out);
    }
  }

  lemma {:induction false} AfterFirst(pre: string, rest: string, out: string)
    requires pre != ""
    ensures (pre + rest)[1..] == pre[1..] + rest && [pre[0]] + (pre[1..] + out) == pre + out
  {
  }

  lemma {:induction false} TailKeeps(s: string, n: nat)
    requires 0 < n && s != "" && NoneBefore(n, s)
    ensures NoneBefore(n - 1, s[1..])
  {
    var t := s[1..];
    forall i | 0 <= i < n - 1 && i + 2 < |t| && t[i] == '$' && t[i + 1] == '{' ensures t[i + 2] == '}' {
      assert s[i + 1] == '$' && s[i + 1 + 1] == '{';
    }
  }

  lemma {:induction false} NoMatchHere(s: string, n: nat)
    requires 0 < n && NoneBefore(n, s)
    ensures Match(s).None?
  {
    if |s| > 2 && s[0] == '$' && s[1] == '{' {
      assert s[2..][0] == '}';
    }
  }

  // ---------------------------------------------------------------- every text is one of these

  // A "${" that opens a placeholder: something other than "}" follows it, and later a "}".
  predicate Opens(s: string, i: nat) {
    i + 2 < |s| && s[i] == '$' && s[i + 1] == '{' && s[i + 2] != '}' && '}' in s[i + 3..]
  }

  // A text in which nothing opens a placeholder stays as it is; any other divides at its first one.
  lemma {:induction false} EveryText(env: Env, s: string)
    ensures (forall i :: 0 <= i < |s| ==> !Opens(s, i)) ==> Expand(env, s) == s
    ensures (exists i :: 0 <= i < |s| && Opens(s, i)) ==>
      exists pre, e, post :: s == pre + "${" + e + "}" + post && e != "" && '}' !in e && NoneBefore(|pre|, s)
  {
    if i :| 0 <= i < |s| && Opens(s, i) {
      var pre, e, post := Divide(s);
    } else {
      forall i | 0 <= i < |s| ensures Match(s[i..]).None? {
        OpensIff(s, i);
      }
      PlainTextUnchanged(env, s);
    }
  }

  lemma {:induction false} OpensIff(s: string, i: nat)
    requires i < |s|
    ensures Opens(s, i) <==> Match(s[i..]).Some?
  {
    var t := s[i..];
    if |t| > 2 {
      assert t[2..] == [s[i + 2]] + s[i + 3..];
    }
  }

  lemma {:induction false} Divide(s: string) returns (pre: string, e: string, post: string)
    requires exists i :: 0 <= i < |s| && Opens(s, i)
    ensures s == pre + "${" + e + "}" + post && e != "" && '}' !in e && NoneBefore(|pre|, s)
  {
    if Opens(s, 0) {
      e, post := DivideHere(s);
      pre := "";
      assert s == "" + "${" + e + "}" + post;
    } else {
      var i :| 0 <= i < |s| && Opens(s, i);
      assert s[1..][i - 1 + 3..] == s[i + 3..];
      assert Opens(s[1..], i - 1);
      var front;
      front, e, post := Divide(s[1..]);
      pre := [s[0]] + front;
      Put(s, front, e, post);
    }
  }

  lemma {:induction false} DivideHere(s: string) returns (e: string, post: string)
    requires s != "" && Opens(s, 0)
    ensures s == "${" + e + "}" + post && e != "" && '}' !in e
  {
    OpensIff(s, 0);
    assert s[0..] == s;
    e := Match(s).value;
    post := s[|e| + 3..];
    assert s[..|e| + 3] == "${" + e + "}";
  }

  lemma {:induction false} Put(s: string, front: string, e: string, post: string)
    requires s != "" && !Opens(s, 0) && s[1..] == front + "${" + e + "}" + post && NoneBefore(|front|, s[1..])
    ensures s == [s[0]] + front + "${" + e + "}" + post && NoneBefore(|front| + 1, s)
  {
    var n, t := |front|, s[1..];
    assert s == [s[0]] + s[1..];
    assert t[n + 2 + |e|] == '}';
    assert s[n + 3 + |e|] == '}' && s[3..][n + |e|] == '}';
    PutBefore(s, n);
  }

  lemma {:induction false} PutBefore(s: string, n: nat)
    requires |s| > 3 && !Opens(s, 0) && '}' in s[3..] && NoneBefore(n, s[1..])
    ensures NoneBefore(n + 1, s)
  {
    var t := s[1..];
    forall i | 0 < i < n + 1 && i + 2 < |s| && s[i] == '$' && s[i + 1] == '{' ensures s[i + 2] == '}' {
      assert t[i - 1] == '$' && t[i - 1 + 1] == '{';
    }
  }

  // ---------------------------------------------------------------- trees

  // The value at the end of a path of positions.
  function At(v: Value, path: seq<nat>): Option<Value>
    decreases |path|
  {
    if path == [] then Some(v)
    else
      match v
      case List(items) => if path[0] < |items| then At(items[path[0]], path[1..]) else None
      case Dict(fields) => if path[0] < |fields| then At(fields[path[0]].value, path[1..]) else None
      case _ => None
  }

  // Wherever a tree holds a string, the expanded tree holds its expansion.
  lemma {:induction false} StringAt(env: Env, v: Value, path: seq<nat>, s: string)
    requires At(v, path) == Some(Str(s))
    ensures At(ExpandValue(env, v), path) == Some(Str(Expand(env, s)))
    decreases |path|
  {
    if path != [] {
      match v
      case List(items) =>
        ItemsAt(env, items);
        StringAt(env, items[path[0]], path[1..], s);
      case Dict(fields) =>
        FieldsAt(env, fields);
        StringAt(env, fields[path[0]].value, path[1..], s);
      case _ => assert false;
    }
  }

  // So a placeholder anywhere in a tree becomes the value of its variable, or its default.
  lemma {:induction false} TreeDefaultApplies(
      env: Env, v: Value, path: seq<nat>, pre: string, name: string, d: string, post: string)
    requires Undivided(name) && '}' !in name && '}' !in d
    requires NoneBefore(|pre|, pre + "${" + name + ":-" + d + "}" + post)
    requires At(v, path) == Some(Str(pre + "${" + name + ":-" + d + "}" + post))
    ensures At(ExpandValue(env, v), path) ==
      Some(Str(pre + (if name in env then env[name] else d) + Expand(env, post)))
  {
    DefaultApplies(env, pre, name, d, post);
    StringAt(env, v, path, pre + "${" + name + ":-" + d + "}" + post);
  }

  lemma {:induction false} TreeVariableApplies(
      env: Env, v: Value, path: seq<nat>, pre: string, name: string, post: string)
    requires name != "" && Undivided(name) && '}' !in name
    requires NoneBefore(|pre|, pre + "${" + name + "}" + post)
    requires At(v, path) == Some(Str(pre + "${" + name + "}" + post))
    ensures At(ExpandValue(env, v), path) ==
      Some(Str(pre + (if name in env then env[name] else "") + Expand(env, post)))
  {
    VariableApplies(env, pre, name, post);
    StringAt(env, v, path, pre + "${" + name + "}" + post);
  }
}

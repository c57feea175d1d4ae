/** Chains of name references: variables whose value names another variable. */
module Namerefs {
  import opened Text

  type Vars = map<string, string>

  const NAMEREF_VARS := "__RUBASH_NAMEREF_VARS"
  const MAX_HOPS := 16

  predicate Letter(c: char) { 'a' <= c <= 'z' || 'A' <= c <= 'Z' || c == '_' }

  predicate ValidIdentifier(name: string) {
    name != "" && Letter(name[0]) && forall c | c in name :: Letter(c) || '0' <= c <= '9'
  }

  predicate ValidArrayReference(text: string) {
    match SplitOnce(text, '[')
    case None => false
    case Some((base, rest)) => |rest| >= 2 && rest[|rest| - 1] == ']' && ValidIdentifier(base)
  }

  predicate ValidValue(value: string) { value != "" && (ValidIdentifier(value) || ValidArrayReference(value)) }

  predicate Nameref(vars: Vars, name: string) {
    name != "" && NAMEREF_VARS in vars && name in SplitAt(vars[NAMEREF_VARS], "\U{1F}")
  }

  /** A name reference whose cell names a variable. */
  predicate Leads(vars: Vars, name: string) { Nameref(vars, name) && name in vars && ValidValue(vars[name]) }

  /** The names passed on at most `limit` hops from a name; none when a name reference leads nowhere. */
  function Hops(vars: Vars, name: string, limit: nat): (path: Option<seq<string>>)
    ensures path.Some? ==> 1 <= |path.value| <= limit + 1 && path.value[0] == name
    ensures path.Some? && limit > 0 && Nameref(vars, name) ==> |path.value| > 1
    decreases limit
  {
    if limit == 0 || !Nameref(vars, name) then Some([name])
    else if !Leads(vars, name) then None
    else match Hops(vars, vars[name], limit - 1)
      case None => None
      case Some(rest) => Some([name] + rest)
  }

  function Resolved(vars: Vars, name: string): Option<(string, string)> {
    if !Nameref(vars, name) then None
    else match Hops(vars, name, MAX_HOPS)
      case None => None
      case Some(path) =>
        var n := |path|;
        if path[n - 2] == path[n - 1] then None else Some((path[n - 2], path[n - 1]))
  }

  function Extended(path: seq<string>, rest: Option<seq<string>>): Option<seq<string>> {
    match rest
    case None => None
    case Some(names) => Some(path + names)
  }

  lemma HopsStep(vars: Vars, before: seq<string>, name: string, limit: nat)
    requires limit > 0
    ensures !Nameref(vars, name) ==> Extended(before, Hops(vars, name, limit)) == Some(before + [name])
    ensures Nameref(vars, name) && !Leads(vars, name) ==> Extended(before, Hops(vars, name, limit)) == None
    ensures Leads(vars, name) ==>
              Extended(before, Hops(vars, name, limit)) == Extended(before + [name], Hops(vars, vars[name], limit - 1))
  {
    hide Nameref, ValidValue;
    if Leads(vars, name) {
      LeadsIs(vars, name);
      match Hops(vars, vars[name], limit - 1)
      case None =>
      case Some(rest) => assert before + ([name] + rest) == (before + [name]) + rest;
    }
  }

  method DeclareNamerefChain(vars: Vars, name: string) returns (chain: Option<(string, string)>)
    ensures chain == Resolved(vars, name)
  {
    hide Nameref, ValidValue, Hops, Extended;
    if !Nameref(vars, name) { return None; }
    var last, current := name, name;
    ghost var before: seq<string> := [];
    ghost var goal := Hops(vars, name, MAX_HOPS);
    NoHops(vars, name, []);
    for hop := 0 to MAX_HOPS
      invariant |before| == hop && Extended(before, Hops(vars, current, MAX_HOPS - hop)) == goal
      invariant hop == 0 ==> current == name
      invariant hop > 0 ==> last == before[hop - 1]
    {
      HopsStep(vars, before, current, MAX_HOPS - hop);
      if !Nameref(vars, current) {
        assert goal == Some(before + [current]) && hop > 0;
        break;
      }
      if current !in vars { return None; }
      var cell := vars[current];
      if !ValidValue(cell) { return None; }
      before := before + [current];
      last, current := current, cell;
    }
    NoHops(vars, current, before);
    assert before != [] && goal == Some(before + [current]);
    if last == current { return None; }
    return Some((last, current));
  }

  lemma NoHops(vars: Vars, name: string, before: seq<string>)
    ensures Extended(before, Hops(vars, name, 0)) == Some(before + [name])
    ensures Extended([], Hops(vars, name, MAX_HOPS)) == Hops(vars, name, MAX_HOPS)
  {
    match Hops(vars, name, MAX_HOPS)
    case None =>
    case Some(path) => assert [] + path == path;
  }

  // ----- What the result means

  /** Each name but the last is a name reference whose cell is the next one. */
  predicate Path(vars: Vars, path: seq<string>) {
    forall i | 0 <= i < |path| - 1 :: Leads(vars, path[i]) && vars[path[i]] == path[i + 1]
  }

  /** The walk takes the only path that ends at a plain variable or after the last hop. */
  lemma {:induction false} HopsIs(vars: Vars, name: string, limit: nat, path: seq<string>)
    ensures Hops(vars, name, limit) == Some(path) <==>
            && 1 <= |path| <= limit + 1 && path[0] == name && Path(vars, path)
            && (|path| == limit + 1 || !Nameref(vars, path[|path| - 1]))
    decreases limit
  {
    hide Nameref, ValidValue;
    if limit > 0 && Nameref(vars, name) && Leads(vars, name) {
      var next := vars[name];
      if Hops(vars, name, limit) == Some(path) {
        var rest := path[1..];
        assert Hops(vars, next, limit - 1).value == rest;
        HopsIs(vars, next, limit - 1, rest);
        forall i | 0 <= i < |path| - 1 ensures Leads(vars, path[i]) && vars[path[i]] == path[i + 1] {
          if i > 0 { assert path[i] == rest[i - 1] && path[i + 1] == rest[i - 1 + 1]; }
        }
      } else if |path| > 1 && path[0] == name && Path(vars, path) {
        var rest := path[1..];
        assert path == [name] + rest;
        assert rest[0] == path[0 + 1];
        HopsIs(vars, next, limit - 1, rest);
        forall i | 0 <= i < |rest| - 1 ensures Leads(vars, rest[i]) && vars[rest[i]] == rest[i + 1] {
          assert path[i + 1] == rest[i] && path[i + 1 + 1] == rest[i + 1];
        }
      }
    } else if |path| == 1 {
      assert path == [path[0]];
    } else if |path| > 1 {
      assert Path(vars, path) ==> Leads(vars, path[0]);
      assert Leads(vars, name) ==> Nameref(vars, name) by { LeadsIs(vars, name); }
    }
  }

  lemma LeadsIs(vars: Vars, name: string)
    ensures Leads(vars, name) ==> Nameref(vars, name) && name in vars
  {
  }

  /** The result is the last hop of a path of one to sixteen hops over name references, which ends at a plain variable
      or has all sixteen, and whose last hop is not from a variable to itself. */
  lemma ResolvedIs(vars: Vars, name: string, last: string, target: string)
    ensures Resolved(vars, name) == Some((last, target)) <==>
            exists path: seq<string> ::
              && 2 <= |path| <= 17 && path[0] == name && Path(vars, path)
              && (|path| == 17 || !Nameref(vars, target))
              && path[|path| - 2] == last && path[|path| - 1] == target && last != target
  {
    hide Nameref, ValidValue, Hops;
    if Resolved(vars, name) == Some((last, target)) {
      var path := Hops(vars, name, MAX_HOPS).value;
      HopsIs(vars, name, MAX_HOPS, path);
    }
    if path: seq<string> :|
      && 2 <= |path| <= 17 && path[0] == name && Path(vars, path)
      && (|path| == 17 || !Nameref(vars, target))
      && path[|path| - 2] == last && path[|path| - 1] == target && last != target
    {
      HopsIs(vars, name, MAX_HOPS, path);
      assert Leads(vars, path[0]);
      LeadsIs(vars, name);
    }
  }

  /** Following the result's first name leads to its second; it is a name reference. */
  lemma LastIsNameref(vars: Vars, name: string)
    requires Resolved(vars, name).Some?
    ensures var (last, target) := Resolved(vars, name).value; Leads(vars, last) && vars[last] == target
  {
    var path := Hops(vars, name, MAX_HOPS).value;
    HopsIs(vars, name, MAX_HOPS, path);
    hide Hops;
    assert Leads(vars, path[|path| - 2]) && vars[path[|path| - 2]] == path[|path| - 2 + 1];
  }

  /** The target is a plain variable exactly when one is reached on one to sixteen hops. */
  lemma PlainTarget(vars: Vars, name: string)
    ensures (Resolved(vars, name).Some? && !Nameref(vars, Resolved(vars, name).value.1)) <==>
            exists path: seq<string> ::
              2 <= |path| <= 17 && path[0] == name && Path(vars, path) && !Nameref(vars, path[|path| - 1])
  {
    hide Nameref, ValidValue, Hops;
    if Resolved(vars, name).Some? && !Nameref(vars, Resolved(vars, name).value.1) {
      HopsIs(vars, name, MAX_HOPS, Hops(vars, name, MAX_HOPS).value);
    }
    if path: seq<string> :|
      2 <= |path| <= 17 && path[0] == name && Path(vars, path) && !Nameref(vars, path[|path| - 1])
    {
      HopsIs(vars, name, MAX_HOPS, path);
      var n := |path| - 2;
      assert Leads(vars, path[0]) && Leads(vars, path[n]);
      LeadsIs(vars, name);
      LeadsIs(vars, path[n]);
    }
  }

  /** A variable that names itself ends every chain that reaches it within fifteen hops without a result. */
  lemma SelfReference(vars: Vars, path: seq<string>)
    requires 1 <= |path| <= 16 && Path(vars, path)
    requires Leads(vars, path[|path| - 1]) && vars[path[|path| - 1]] == path[|path| - 1]
    ensures Resolved(vars, path[0]) == None
  {
    var n := |path| - 1;
    var long := seq(17, i requires 0 <= i < 17 => if i < n then path[i] else path[n]);
    hide ValidValue, Hops, Nameref;
    forall i | 0 <= i < 16 ensures Leads(vars, long[i]) && vars[long[i]] == long[i + 1] {
      if i < n { assert Leads(vars, path[i]) && vars[path[i]] == path[i + 1]; }
    }
    HopsIs(vars, path[0], MAX_HOPS, long);
  }

  /** Every name in the set is a name reference to a name in the set, and none to itself. */
  predicate Closed(vars: Vars, names: set<string>) {
    forall a | a in names :: Leads(vars, a) && vars[a] in names && vars[a] != a
  }

  /** A cycle of two or more name references is not noticed: the result's target is itself a name reference. */
  lemma CycleUnnoticed(vars: Vars, name: string, names: set<string>)
    requires Closed(vars, names) && name in names
    ensures Resolved(vars, name).Some? && Nameref(vars, Resolved(vars, name).value.1)
  {
    hide ValidValue, Nameref;
    ClosedHops(vars, name, names, MAX_HOPS);
    LeadsIs(vars, name);
    var path := Hops(vars, name, MAX_HOPS).value;
    HopsIs(vars, name, MAX_HOPS, path);
    LeadsIs(vars, path[16]);
    assert vars[path[15]] == path[15 + 1];
  }

  lemma {:induction false} ClosedHops(vars: Vars, name: string, names: set<string>, limit: nat)
    requires Closed(vars, names) && name in names
    ensures var path := Hops(vars, name, limit);
            path.Some? && |path.value| == limit + 1 && forall i | 0 <= i <= limit :: path.value[i] in names
    decreases limit
  {
    hide ValidValue, Nameref;
    LeadsIs(vars, name);
    if limit > 0 { ClosedHops(vars, vars[name], names, limit - 1); }
  }

  // ----- Which texts are names, and which names are references

  /** Letters, digits and underscores, with no digit in front. */
  predicate Identifier(s: string) {
    && s != "" && !('0' <= s[0] <= '9')
    && forall c | c in s :: 'a' <= c <= 'z' || 'A' <= c <= 'Z' || '0' <= c <= '9' || c == '_'
  }

  lemma IdentifierIs(s: string)
    ensures ValidIdentifier(s) <==> Identifier(s)
  {
    if Identifier(s) { assert s[0] in s; }
  }

  lemma {:induction false} FirstBracket(text: string)
    ensures match SplitOnce(text, '[')
            case None => '[' !in text
            case Some((left, right)) => '[' !in left && text == left + "[" + right
  {
    if text != "" && text[0] != '[' {
      FirstBracket(text[1..]);
      assert text == [text[0]] + text[1..];
    }
  }

  /** A cell names a variable exactly when it is an identifier, or an identifier with a subscript that is not empty. */
  lemma ValueIs(text: string)
    ensures ValidValue(text) <==>
            || Identifier(text)
            || exists base, subscript :: Identifier(base) && subscript != "" && text == base + "[" + subscript + "]"
  {
    hide ValidIdentifier, Identifier;
    IdentifierIs(text);
    if ValidArrayReference(text) {
      FirstBracket(text);
      var (base, rest) := SplitOnce(text, '[').value;
      IdentifierIs(base);
      var subscript := rest[..|rest| - 1];
      assert text == base + "[" + subscript + "]";
    }
    if base, subscript :| Identifier(base) && subscript != "" && text == base + "[" + subscript + "]" {
      IdentifierIs(base);
      NoBracket(base);
      SplitOnceAt(base, '[', subscript + "]");
      assert text == base + ['['] + (subscript + "]");
    }
    if Identifier(text) { assert text != "" by { NotEmpty(text); } }
  }

  lemma NoBracket(base: string)
    requires Identifier(base)
    ensures '[' !in base
  {
  }

  lemma NotEmpty(s: string)
    requires Identifier(s)
    ensures s != ""
  {
  }

  /** The names of a list joined by the unit separator are the name references. */
  lemma NamerefsListed(vars: Vars, names: seq<string>, name: string)
    requires names != [] && (forall n | n in names :: '\U{1F}' !in n)
    requires "__RUBASH_NAMEREF_VARS" in vars && vars["__RUBASH_NAMEREF_VARS"] == Join(names, "\U{1F}")
    ensures Nameref(vars, name) <==> name != "" && name in names
  {
    assert ['\U{1F}'] == "\U{1F}";
    SplitAtJoin(names, '\U{1F}', "\U{1F}");
  }

  /** Without that list no name is a reference. */
  lemma NothingListed(vars: Vars, name: string)
    requires "__RUBASH_NAMEREF_VARS" !in vars
    ensures !Nameref(vars, name) && Resolved(vars, name) == None
  {
  }

  /** One reference to one plain variable. */
  lemma OneReference(vars: Vars, name: string, target: string)
    requires "__RUBASH_NAMEREF_VARS" in vars && vars["__RUBASH_NAMEREF_VARS"] == name && '\U{1F}' !in name
    requires name != "" && name in vars && vars[name] == target && target != name
    ensures Resolved(vars, name) == if ValidValue(target) then Some((name, target)) else None
  {
    hide ValidValue, Nameref;
    assert Join([name], "\U{1F}") == name;
    NamerefsListed(vars, [name], name);
    NamerefsListed(vars, [name], target);
    if ValidValue(target) {
      var path := [name, target];
      assert Leads(vars, path[0]);
      ResolvedIs(vars, name, name, target);
    }
  }
}

// fb_cmake_parse_args: a CMake function that sorts its caller's arguments by keyword. CMake has
// only strings, so lists of values live in variables as text with ";" between the elements.
module ParseArgs {
  import opened Text
  import opened Wrappers

  /** The names the caller declares. */
  datatype Decl = Decl(prefix: string, options: seq<string>, oneValue: seq<string>, multiValue: seq<string>)

  type Scope = map<string, string>

  /** Settings of the caller's variables: a value, or None for unset. */
  type Settings = map<string, Option<string>>

  /** The variables of the function: the dynamic ones (VALUES_x, SEEN_x, SEEN_VALUES_x) by name. */
  datatype Env = Env(scope: Scope, current: string, unparsed: Option<string>, parent: Settings)

  datatype Outcome = Fatal(message: string) | Returned(parent: Settings)

  function Get(scope: Scope, name: string): string {
    if name in scope then scope[name] else ""
  }

  /** list(APPEND): an empty variable is an empty list, so appending to a list of one empty element loses it. */
  function Append(list: string, value: string): string {
    if list == "" then value else list + ";" + value
  }

  /** foreach(... IN LISTS ...): the elements of a list variable. */
  function Elements(list: string): seq<string> {
    if list == "" then [] else Split(list, ';')
  }

  predicate IsOption(d: Decl, arg: string) {
    arg in d.options
  }

  predicate IsKeyword(d: Decl, arg: string) {
    !IsOption(d, arg) && (arg in d.oneValue || arg in d.multiValue)
  }

  predicate IsValue(d: Decl, arg: string) {
    !IsOption(d, arg) && !IsKeyword(d, arg)
  }

  // ----- what the arguments mean -----

  /** The keyword whose values are being given after these arguments; none at the start and after an option. */
  function Owner(d: Decl, args: seq<string>): Option<string> {
    if args == [] then None
    else
      var last := args[|args| - 1];
      if IsOption(d, last) then None
      else if IsKeyword(d, last) then Some(last)
      else Owner(d, args[..|args| - 1])
  }

  /** The values given for an owner, in order; for None, the arguments nobody asked for. */
  function Values(d: Decl, args: seq<string>, owner: Option<string>): seq<string> {
    if args == [] then []
    else
      var front, last := args[..|args| - 1], args[|args| - 1];
      Values(d, front, owner) + if IsValue(d, last) && Owner(d, front) == owner then [last] else []
  }

  predicate Mentioned(d: Decl, args: seq<string>, k: string) {
    IsKeyword(d, k) && k in args
  }

  /** The owner is the nearest option or keyword before. */
  lemma {:induction false} OwnerIsNearest(d: Decl, args: seq<string>, k: string)
    ensures Owner(d, args) == Some(k) <==>
      exists j | 0 <= j < |args| :: args[j] == k && IsKeyword(d, k) && forall m | j < m < |args| :: IsValue(d, args[m])
  {
    if args != [] {
      var front, last := args[..|args| - 1], args[|args| - 1];
      OwnerIsNearest(d, front, k);
      if Owner(d, args) == Some(k) {
        if IsValue(d, last) {
          var j :| 0 <= j < |front| && front[j] == k && IsKeyword(d, k) && forall m | j < m < |front| :: IsValue(d, front[m]);
          assert args[j] == k && forall m | j < m < |args| :: IsValue(d, args[m]);
        } else {
          assert args[|args| - 1] == k;
        }
      }
      if j :| 0 <= j < |args| && args[j] == k && IsKeyword(d, k) && forall m | j < m < |args| :: IsValue(d, args[m]) {
        if j < |front| { assert front[j] == k && forall m | j < m < |front| :: IsValue(d, front[m]); }
      }
    }
  }

  /** Where the values of an owner stand among the arguments. */
  function Places(d: Decl, args: seq<string>, owner: Option<string>): seq<nat> {
    if args == [] then []
    else
      var n := |args| - 1;
      Places(d, args[..n], owner) + if IsValue(d, args[n]) && Owner(d, args[..n]) == owner then [n] else []
  }

  /** Every value argument lands in exactly one group, or among the unparsed, in the order of the call. */
  lemma {:induction false} PlacesPartition(d: Decl, args: seq<string>, owner: Option<string>)
    ensures forall i :: i in Places(d, args, owner) <==> 0 <= i < |args| && IsValue(d, args[i]) && Owner(d, args[..i]) == owner
    ensures forall a, b | 0 <= a < b < |Places(d, args, owner)| :: Places(d, args, owner)[a] < Places(d, args, owner)[b]
  {
    if args != [] {
      var n := |args| - 1;
      var front := args[..n];
      PlacesPartition(d, front, owner);
      var places, before := Places(d, args, owner), Places(d, front, owner);
      assert forall i :: i in places <==> i in before || (i == n && IsValue(d, args[n]) && Owner(d, front) == owner);
      forall i | 0 <= i < n ensures front[..i] == args[..i] && front[i] == args[i] {}
      assert forall a | 0 <= a < |before| :: before[a] in before;
    }
  }

  /** A group lists the arguments at its places. */
  lemma {:induction false} ValuesStandAtPlaces(d: Decl, args: seq<string>, owner: Option<string>)
    ensures |Values(d, args, owner)| == |Places(d, args, owner)|
    ensures forall a | 0 <= a < |Values(d, args, owner)| ::
      Places(d, args, owner)[a] < |args| && Values(d, args, owner)[a] == args[Places(d, args, owner)[a]]
  {
    if args != [] { ValuesStandAtPlaces(d, args[..|args| - 1], owner); }
  }

  // ----- what the function does with one argument -----

  function Step(d: Decl, e: Env, arg: string): Env {
    if IsOption(d, arg) then
      e.(current := "", parent := e.parent[d.prefix + "_" + arg := Some("TRUE")])
    else if arg in d.oneValue || arg in d.multiValue then
      e.(current := "VALUES_" + arg, scope := e.scope["SEEN_" + arg := "TRUE"])
    else if e.current == "" then
      e.(unparsed := Some(Append(if e.unparsed.Some? then e.unparsed.value else "", arg)))
    else
      var seen, values := Get(e.scope, "SEEN_" + e.current), Get(e.scope, e.current);
      var values' := if seen == "TRUE" && values == "" then ";" + arg else Append(values, arg);
      e.(scope := e.scope[e.current := values']["SEEN_" + e.current := "TRUE"])
  }

  function Fold(d: Decl, start: Env, args: seq<string>): Env {
    if args == [] then start else Step(d, Fold(d, start, args[..|args| - 1]), args[|args| - 1])
  }

  function Start(parent: Settings): Env {
    Env(map[], "", None, parent)
  }

  /** No keyword is called VALUES_x for another keyword x: such a name would set the flag SEEN_VALUES_x. */
  ghost predicate NoClash(d: Decl) {
    forall x, y | IsKeyword(d, x) && IsKeyword(d, y) :: y != "VALUES_" + x
  }

  /** What the variables say about keyword k: the list, read with its flag. */
  function Decode(scope: Scope, k: string): seq<string> {
    if Get(scope, "SEEN_VALUES_" + k) == "TRUE" then Split(Get(scope, "VALUES_" + k), ';') else []
  }

  lemma NamesApart(a: string, b: string)
    ensures "VALUES_" + a != "SEEN_" + b
    ensures "VALUES_" + a == "VALUES_" + b <==> a == b
    ensures "SEEN_" + a == "SEEN_" + b <==> a == b
    ensures "SEEN_VALUES_" + a == "SEEN_" + b <==> b == "VALUES_" + a
    ensures "SEEN_" + ("VALUES_" + a) == "SEEN_VALUES_" + a
    ensures "VALUES_" + a != ""
  {
    assert ("VALUES_" + a)[0] == 'V' && ("SEEN_" + b)[0] == 'S';
    assert ("VALUES_" + a)[7..] == a && ("VALUES_" + b)[7..] == b;
    assert ("SEEN_" + a)[5..] == a && ("SEEN_" + b)[5..] == b;
    assert "SEEN_VALUES_" == "SEEN_" + "VALUES_";
    assert "SEEN_VALUES_" + a == "SEEN_" + ("VALUES_" + a);
    assert ("SEEN_VALUES_" + a)[5..] == "VALUES_" + a;
  }

  predicate IsTrue(scope: Scope, name: string) {
    Get(scope, name) == "TRUE"
  }

  /** The variables hold, for keyword k, the joined values and the two flags. */
  predicate Encodes(d: Decl, e: Env, args: seq<string>, k: string) {
    Holds(e.scope, "VALUES_" + k, "SEEN_VALUES_" + k, "SEEN_" + k, Values(d, args, Some(k)), Mentioned(d, args, k))
  }

  predicate Holds(scope: Scope, list: string, flag: string, seen: string, values: seq<string>, mentioned: bool) {
    && Get(scope, list) == Join(values, ';')
    && (IsTrue(scope, flag) <==> values != [])
    && (IsTrue(scope, seen) <==> mentioned)
  }

  /** Setting other variables leaves what is held. */
  lemma OtherVariables(scope: Scope, name: string, value: string,
                       list: string, flag: string, seen: string, values: seq<string>, mentioned: bool)
    requires Holds(scope, list, flag, seen, values, mentioned)
    requires name != list && name != flag && name != seen
    ensures Holds(scope[name := value], list, flag, seen, values, mentioned)
  {
  }

  predicate CurrentIs(e: Env, owner: Option<string>) {
    e.current == if owner.Some? then "VALUES_" + owner.value else ""
  }

  /** Appending through list(APPEND), with the special case for a lone empty element, appends to the joined list. */
  lemma AppendIsJoin(values: seq<string>, value: string)
    ensures (if values != [] && Join(values, ';') == "" then ";" + value else Append(Join(values, ';'), value))
      == Join(values + [value], ';')
  {
    if values == [] {
      assert values + [value] == [value];
    } else {
      JoinAppend(values, value, ';');
    }
  }

  lemma OwnerIsKeyword(d: Decl, args: seq<string>)
    ensures Owner(d, args).Some? ==> IsKeyword(d, Owner(d, args).value)
  {
  }

  /** What one more argument does to the spec side. */
  lemma OneMoreArgument(d: Decl, args: seq<string>, arg: string, k: string)
    ensures Values(d, args + [arg], Some(k))
      == if IsValue(d, arg) && Owner(d, args) == Some(k) then Values(d, args, Some(k)) + [arg] else Values(d, args, Some(k))
    ensures Mentioned(d, args + [arg], k) <==> Mentioned(d, args, k) || (arg == k && IsKeyword(d, k))
  {
    assert (args + [arg])[..|args|] == args;
    assert Values(d, args, Some(k)) + [] == Values(d, args, Some(k));
  }

  lemma MarkerEncodes(d: Decl, e: Env, args: seq<string>, arg: string, k: string)
    requires NoClash(d) && IsKeyword(d, k) && Encodes(d, e, args, k) && !IsValue(d, arg)
    ensures Encodes(d, Step(d, e, arg), args + [arg], k)
  {
    OneMoreArgument(d, args, arg, k);
    if IsKeyword(d, arg) {
      var name, list, flag, seen := "SEEN_" + arg, "VALUES_" + k, "SEEN_VALUES_" + k, "SEEN_" + k;
      assert name != list && name != flag by { NamesApart(k, arg); }
      assert Step(d, e, arg).scope == e.scope[name := "TRUE"];
      if arg == k {
        assert Holds(e.scope[name := "TRUE"], list, flag, seen, Values(d, args, Some(k)), true);
      } else {
        assert name != seen by { NamesApart(k, arg); }
        OtherVariables(e.scope, name, "TRUE", list, flag, seen, Values(d, args, Some(k)), Mentioned(d, args, k));
      }
    }
  }

  lemma OtherValueEncodes(d: Decl, e: Env, args: seq<string>, arg: string, k: string)
    requires NoClash(d) && IsKeyword(d, k) && Encodes(d, e, args, k) && CurrentIs(e, Owner(d, args))
    requires IsValue(d, arg) && Owner(d, args) != Some(k)
    ensures Encodes(d, Step(d, e, arg), args + [arg], k)
  {
    OneMoreArgument(d, args, arg, k);
    if Owner(d, args).Some? {
      OwnerIsKeyword(d, args);
      var owner := Owner(d, args).value;
      var own, ownFlag, list, flag, seen :=
        "VALUES_" + owner, "SEEN_" + e.current, "VALUES_" + k, "SEEN_VALUES_" + k, "SEEN_" + k;
      assert own == e.current && own != "" by { NamesApart(owner, k); }
      assert own != list && own != flag && own != seen && ownFlag != list && ownFlag != flag && ownFlag != seen by {
        OtherNames(owner, k);
      }
      var value := Step(d, e, arg).scope[own];
      assert Step(d, e, arg).scope == e.scope[own := value][ownFlag := "TRUE"];
      OtherVariables(e.scope, own, value, list, flag, seen, Values(d, args, Some(k)), Mentioned(d, args, k));
      OtherVariables(e.scope[own := value], ownFlag, "TRUE", list, flag, seen, Values(d, args, Some(k)), Mentioned(d, args, k));
    }
  }

  lemma OtherNames(owner: string, k: string)
    requires owner != k && "VALUES_" + owner != k
    ensures "VALUES_" + owner != "VALUES_" + k && "VALUES_" + owner != "SEEN_VALUES_" + k
    ensures "VALUES_" + owner != "SEEN_" + k
    ensures "SEEN_" + ("VALUES_" + owner) != "VALUES_" + k && "SEEN_" + ("VALUES_" + owner) != "SEEN_VALUES_" + k
    ensures "SEEN_" + ("VALUES_" + owner) != "SEEN_" + k
  {
    NamesApart(owner, k);
    NamesApart(k, "VALUES_" + owner);
    NamesApart("VALUES_" + owner, "VALUES_" + k);
    NamesApart(k, k);
    assert ("VALUES_" + owner)[0] == 'V' && ("SEEN_VALUES_" + k)[0] == 'S';
  }

  lemma OwnValueEncodes(d: Decl, e: Env, args: seq<string>, arg: string, k: string)
    requires NoClash(d) && IsKeyword(d, k) && Encodes(d, e, args, k) && CurrentIs(e, Some(k))
    requires IsValue(d, arg) && Owner(d, args) == Some(k)
    ensures Encodes(d, Step(d, e, arg), args + [arg], k)
  {
    OneMoreArgument(d, args, arg, k);
    NamesApart(k, k);
    NamesApart(k, "VALUES_" + k);
    AppendIsJoin(Values(d, args, Some(k)), arg);
  }

  lemma StepEncodes(d: Decl, e: Env, args: seq<string>, arg: string, k: string)
    requires NoClash(d) && IsKeyword(d, k) && Encodes(d, e, args, k) && CurrentIs(e, Owner(d, args))
    ensures Encodes(d, Step(d, e, arg), args + [arg], k)
  {
    if !IsValue(d, arg) {
      MarkerEncodes(d, e, args, arg, k);
    } else if Owner(d, args) == Some(k) {
      OwnValueEncodes(d, e, args, arg, k);
    } else {
      OtherValueEncodes(d, e, args, arg, k);
    }
  }

  lemma {:induction false} CurrentIsOwner(d: Decl, parent: Settings, args: seq<string>)
    ensures CurrentIs(Fold(d, Start(parent), args), Owner(d, args))
  {
    if args != [] {
      var front := args[..|args| - 1];
      CurrentIsOwner(d, parent, front);
      if Owner(d, front).Some? { NamesApart(Owner(d, front).value, ""); }
    }
  }

  /** Main result: after any arguments the variables of every keyword encode exactly its values. */
  lemma {:induction false} FoldEncodes(d: Decl, parent: Settings, args: seq<string>, k: string)
    requires NoClash(d) && IsKeyword(d, k)
    ensures Encodes(d, Fold(d, Start(parent), args), args, k)
  {
    if args != [] {
      var front, last := args[..|args| - 1], args[|args| - 1];
      FoldEncodes(d, parent, front, k);
      CurrentIsOwner(d, parent, front);
      assert front + [last] == args;
      StepEncodes(d, Fold(d, Start(parent), front), front, last, k);
    }
  }

  lemma {:induction false} ValuesAreFree(d: Decl, args: seq<string>, owner: Option<string>)
    requires AllFree(args, ';')
    ensures AllFree(Values(d, args, owner), ';')
  {
    if args != [] { ValuesAreFree(d, args[..|args| - 1], owner); }
  }

  /** The variables say, for every keyword, exactly what the call gave it. */
  ghost predicate Faithful(d: Decl, args: seq<string>) {
    forall k | IsKeyword(d, k) :: Decode(Fold(d, Start(map[]), args).scope, k) == Values(d, args, Some(k))
  }

  /** Elements of CMake lists hold no ";". */
  predicate Declarable(d: Decl) {
    AllFree(d.options, ';') && AllFree(d.oneValue, ';') && AllFree(d.multiValue, ';')
  }

  /** The text of every keyword, read with its flag, is the list of its values, for all arguments, exactly
      when no keyword is called VALUES_ followed by another keyword. */
  lemma FaithfulExactly(d: Decl)
    requires Declarable(d)
    ensures (forall args | AllFree(args, ';') :: Faithful(d, args)) <==> NoClash(d)
  {
    if NoClash(d) {
      forall args | AllFree(args, ';') ensures Faithful(d, args) {
        forall k | IsKeyword(d, k) ensures Decode(Fold(d, Start(map[]), args).scope, k) == Values(d, args, Some(k)) {
          FoldEncodes(d, map[], args, k);
          ValuesAreFree(d, args, Some(k));
          SplitJoin(Values(d, args, Some(k)), ';');
        }
      }
    } else {
      var x, y :| IsKeyword(d, x) && IsKeyword(d, y) && y == "VALUES_" + x;
      ClashMisreads(d, x, y);
      assert AllFree([y], ';') by { assert y in d.oneValue || y in d.multiValue; }
    }
  }

  /** With keywords x and VALUES_x, mentioning the second one makes the first look as if it had one empty value. */
  lemma ClashMisreads(d: Decl, x: string, y: string)
    requires IsKeyword(d, x) && IsKeyword(d, y) && y == "VALUES_" + x
    ensures !Faithful(d, [y])
  {
    var before, after := Start(map[]), Fold(d, Start(map[]), [y]);
    assert [y][..0] == [];
    assert Fold(d, before, []) == before;
    NamesApart(x, y);
    NamesApart(x, x);
    assert after == Step(d, before, y);
    assert IsTrue(after.scope, "SEEN_VALUES_" + x);
    assert Values(d, [], Some(x)) == [] && Values(d, [y], Some(x)) == [];
  }

  // ----- the unrecognized arguments -----

  /** What list(APPEND), and nothing else, makes of a list. */
  function AppendAll(values: seq<string>): string {
    if values == [] then ""
    else Append(AppendAll(values[..|values| - 1]), values[|values| - 1])
  }

  lemma {:induction false} UnparsedIsAppended(d: Decl, parent: Settings, args: seq<string>)
    ensures var rest := Values(d, args, None);
      Fold(d, Start(parent), args).unparsed == if rest == [] then None else Some(AppendAll(rest))
  {
    if args != [] {
      var front, last := args[..|args| - 1], args[|args| - 1];
      UnparsedIsAppended(d, parent, front);
      CurrentIsOwner(d, parent, front);
      if Owner(d, front).Some? { NamesApart(Owner(d, front).value, ""); }
      var rest := Values(d, front, None);
      assert (rest + [last])[..|rest|] == rest && rest + [] == rest;
    }
  }

  /** Leading empty elements vanish, up to the first one that is not empty or the last. */
  lemma {:induction false} LeadingEmptyVanishes(values: seq<string>)
    requires |values| >= 2 && values[0] == ""
    ensures AppendAll(values) == AppendAll(values[1..])
  {
    var front := values[..|values| - 1];
    if |values| == 2 {
      assert front[..0] == [] && values[1..][..0] == [];
      assert AppendAll(front) == Append(AppendAll([]), "");
    } else {
      LeadingEmptyVanishes(front);
      assert values[1..][..|values| - 2] == front[1..];
    }
  }

  lemma {:induction false} NoLeadingEmptyIsJoin(values: seq<string>)
    requires values != [] && values[0] != ""
    ensures AppendAll(values) == Join(values, ';')
  {
    var front := values[..|values| - 1];
    if front == [] {
      assert values == [values[0]];
    } else {
      NoLeadingEmptyIsJoin(front);
      JoinAppend(front, values[|values| - 1], ';');
      assert front + [values[|values| - 1]] == values;
      assert Join(front, ';') != "" by {
        if |front| == 1 { assert front == [front[0]]; }
      }
    }
  }

  /** The pieces of the accumulated text are at most the elements; fewer when the first is empty and not alone. */
  lemma {:induction false} PiecesOfAppended(values: seq<string>)
    requires values != [] && AllFree(values, ';')
    ensures var pieces := Split(AppendAll(values), ';');
      if |values| >= 2 && values[0] == "" then |pieces| < |values| else pieces == values
  {
    if |values| >= 2 && values[0] == "" {
      LeadingEmptyVanishes(values);
      PiecesOfAppended(values[1..]);
    } else if values[0] != "" {
      NoLeadingEmptyIsJoin(values);
      SplitJoin(values, ';');
    } else {
      assert values == [""] && values[..0] == [];
    }
  }

  /** The text returned for unrecognized arguments denotes them exactly unless the first of several is empty. */
  lemma UnparsedFaithfulExactly(d: Decl, parent: Settings, args: seq<string>)
    requires AllFree(args, ';') && Values(d, args, None) != []
    ensures var rest := Values(d, args, None);
      && Fold(d, Start(parent), args).unparsed.Some?
      && (Split(Fold(d, Start(parent), args).unparsed.value, ';') == rest <==> !(|rest| >= 2 && rest[0] == ""))
  {
    UnparsedIsAppended(d, parent, args);
    ValuesAreFree(d, args, None);
    PiecesOfAppended(Values(d, args, None));
  }

  // ----- the rest of the function -----

  const ALLOW: string := "ALLOW_UNPARSED_ARGS"

  function Key(d: Decl, name: string): string {
    d.prefix + "_" + name
  }

  function OptionsFalse(d: Decl, names: seq<string>, parent: Settings): Settings {
    if names == [] then parent
    else OptionsFalse(d, names[1..], parent[Key(d, names[0]) := Some("FALSE")])
  }

  /** A one-value keyword was mentioned without exactly one value. */
  predicate BadOne(scope: Scope, x: string) {
    && IsTrue(scope, "SEEN_" + x)
    && (!IsTrue(scope, "SEEN_VALUES_" + x) || |Elements(Get(scope, "VALUES_" + x))| > 1)
  }

  function OneSetting(scope: Scope, x: string): Option<string> {
    if !IsTrue(scope, "SEEN_" + x) then None
    else
      var elements := Elements(Get(scope, "VALUES_" + x));
      Some(if elements == [] then "" else elements[0])
  }

  function MultiSetting(scope: Scope, x: string): Option<string> {
    if !IsTrue(scope, "SEEN_" + x) then None else Some(Get(scope, "VALUES_" + x))
  }

  function OneValues(d: Decl, scope: Scope, names: seq<string>, parent: Settings): Outcome {
    if names == [] then Returned(parent)
    else if BadOne(scope, names[0]) then
      Fatal(if !IsTrue(scope, "SEEN_VALUES_" + names[0]) then "argument " + names[0] + " was specified without a value"
            else "too many arguments specified for " + names[0] + ": " + Get(scope, "VALUES_" + names[0]))
    else OneValues(d, scope, names[1..], parent[Key(d, names[0]) := OneSetting(scope, names[0])])
  }

  function MultiValues(d: Decl, scope: Scope, names: seq<string>, parent: Settings): Settings {
    if names == [] then parent
    else MultiValues(d, scope, names[1..], parent[Key(d, names[0]) := MultiSetting(scope, names[0])])
  }

  function Finish(d: Decl, e: Env, allow: bool, parent: Settings): Outcome {
    if e.unparsed == None then Returned(parent)
    else if allow then Returned(parent[Key(d, "UNPARSED_ARGUMENTS") := e.unparsed])
    else Fatal("unrecognized arguments: " + e.unparsed.value)
  }

  /** The first argument after the five declared ones that is not the one allowed there. */
  function Unknown(extra: seq<string>): Option<string> {
    if extra == [] then None else if extra[0] != ALLOW then Some(extra[0]) else Unknown(extra[1..])
  }

  function Parse(d: Decl, argsList: string, extra: seq<string>): Outcome {
    if Unknown(extra).Some? then
      Fatal("unknown optional argument for fb_cmake_parse_args(): " + Unknown(extra).value)
    else
      var e := Fold(d, Start(OptionsFalse(d, d.options, map[])), Elements(argsList));
      match OneValues(d, e.scope, d.oneValue, e.parent)
      case Fatal(message) => Fatal(message)
      case Returned(parent) => Finish(d, e, extra != [], MultiValues(d, e.scope, d.multiValue, parent))
  }

  /** The function itself: its loops over the local variables compute Parse. */
  method FbCmakeParseArgs(d: Decl, argsList: string, extra: seq<string>) returns (r: Outcome)
    ensures r == Parse(d, argsList, extra)
  {
    var allowUnparsed := false;
    var i := 0;
    while i < |extra|
      invariant 0 <= i <= |extra| && allowUnparsed == (i > 0)
      invariant Unknown(extra[i..]) == Unknown(extra)
    {
      if extra[i] == ALLOW {
        allowUnparsed := true;
      } else {
        return Fatal("unknown optional argument for fb_cmake_parse_args(): " + extra[i]);
      }
      i := i + 1;
    }

    var parent: Settings := map[];
    i := 0;
    while i < |d.options|
      invariant 0 <= i <= |d.options|
      invariant OptionsFalse(d, d.options[i..], parent) == OptionsFalse(d, d.options, map[])
    {
      parent := parent[d.prefix + "_" + d.options[i] := Some("FALSE")];
      i := i + 1;
    }

    var args := Elements(argsList);
    var scope, unparsed, parent' := SortArguments(d, args, parent);
    r := CheckOneValues(d, scope, parent');
    if r.Fatal? {
      return;
    }
    parent := StoreMultiValues(d, scope, r.parent);

    if unparsed.Some? {
      if allowUnparsed {
        parent := parent[d.prefix + "_" + "UNPARSED_ARGUMENTS" := unparsed];
      } else {
        return Fatal("unrecognized arguments: " + unparsed.value);
      }
    }
    r := Returned(parent);
  }

  /** The loop over the arguments. */
  method SortArguments(d: Decl, args: seq<string>, parent: Settings)
    returns (scope: Scope, unparsed: Option<string>, parent': Settings)
    ensures exists current :: Env(scope, current, unparsed, parent') == Fold(d, Start(parent), args)
  {
    var currentVariable := "";
    scope, unparsed, parent' := map[], None, parent;
    for i := 0 to |args|
      invariant Env(scope, currentVariable, unparsed, parent') == Fold(d, Start(parent), args[..i])
    {
      var arg := args[i];
      if arg !in d.options {
        if arg !in d.oneValue && arg !in d.multiValue {
          if currentVariable == "" {
            unparsed := Some(Append(if unparsed.Some? then unparsed.value else "", arg));
          } else {
            if Get(scope, "SEEN_" + currentVariable) == "TRUE" && Get(scope, currentVariable) == "" {
              scope := scope[currentVariable := ";" + arg];
            } else {
              scope := scope[currentVariable := Append(Get(scope, currentVariable), arg)];
            }
            scope := scope["SEEN_" + currentVariable := "TRUE"];
          }
        } else {
          currentVariable := "VALUES_" + arg;
          scope := scope["SEEN_" + arg := "TRUE"];
        }
      } else {
        parent' := parent'[d.prefix + "_" + arg := Some("TRUE")];
        currentVariable := "";
      }
      assert args[..i + 1][..i] == args[..i];
    }
    assert args[..|args|] == args;
  }

  /** The loop over the one-value keywords. */
  method CheckOneValues(d: Decl, scope: Scope, parent: Settings) returns (r: Outcome)
    ensures r == OneValues(d, scope, d.oneValue, parent)
  {
    var parent' := parent;
    var i := 0;
    while i < |d.oneValue|
      invariant 0 <= i <= |d.oneValue|
      invariant OneValues(d, scope, d.oneValue[i..], parent') == OneValues(d, scope, d.oneValue, parent)
    {
      var x := d.oneValue[i];
      assert d.oneValue[i..][1..] == d.oneValue[i + 1..];
      if Get(scope, "SEEN_" + x) != "TRUE" {
        parent' := parent'[d.prefix + "_" + x := None];
      } else if Get(scope, "SEEN_VALUES_" + x) != "TRUE" {
        return Fatal("argument " + x + " was specified without a value");
      } else {
        var elements := Elements(Get(scope, "VALUES_" + x));
        if |elements| == 0 {
          parent' := parent'[d.prefix + "_" + x := Some("")];
        } else if |elements| == 1 {
          parent' := parent'[d.prefix + "_" + x := Some(elements[0])];
        } else {
          return Fatal("too many arguments specified for " + x + ": " + Get(scope, "VALUES_" + x));
        }
      }
      i := i + 1;
    }
    r := Returned(parent');
  }

  /** The loop over the multi-value keywords. */
  method StoreMultiValues(d: Decl, scope: Scope, parent: Settings) returns (r: Settings)
    ensures r == MultiValues(d, scope, d.multiValue, parent)
  {
    r := parent;
    var i := 0;
    while i < |d.multiValue|
      invariant 0 <= i <= |d.multiValue|
      invariant MultiValues(d, scope, d.multiValue[i..], r) == MultiValues(d, scope, d.multiValue, parent)
    {
      var x := d.multiValue[i];
      assert d.multiValue[i..][1..] == d.multiValue[i + 1..];
      r := r[d.prefix + "_" + x := if Get(scope, "SEEN_" + x) == "TRUE" then Some(Get(scope, "VALUES_" + x)) else None];
      i := i + 1;
    }
  }

  // ----- what the caller gets -----

  lemma KeysApart(d: Decl, x: string, y: string)
    ensures Key(d, x) == Key(d, y) <==> x == y
  {
    var n := |d.prefix| + 1;
    assert Key(d, x)[n..] == x && Key(d, y)[n..] == y;
  }

  lemma {:induction false} OneValuesResult(d: Decl, scope: Scope, names: seq<string>, parent: Settings, y: string)
    ensures OneValues(d, scope, names, parent).Fatal? <==> exists x <- names :: BadOne(scope, x)
    ensures OneValues(d, scope, names, parent).Returned? ==>
      var result := OneValues(d, scope, names, parent).parent;
      if y in names then Key(d, y) in result && result[Key(d, y)] == OneSetting(scope, y)
      else (Key(d, y) in result <==> Key(d, y) in parent)
           && (Key(d, y) in parent ==> result[Key(d, y)] == parent[Key(d, y)])
  {
    if names != [] {
      KeysApart(d, y, names[0]);
      if !BadOne(scope, names[0]) {
        OneValuesResult(d, scope, names[1..], parent[Key(d, names[0]) := OneSetting(scope, names[0])], y);
        assert forall x | x in names :: x == names[0] || x in names[1..];
      } else {
        assert names[0] in names;
      }
    }
  }

  lemma {:induction false} MultiValuesResult(d: Decl, scope: Scope, names: seq<string>, parent: Settings, y: string)
    ensures var result := MultiValues(d, scope, names, parent);
      if y in names then Key(d, y) in result && result[Key(d, y)] == MultiSetting(scope, y)
      else (Key(d, y) in result <==> Key(d, y) in parent)
           && (Key(d, y) in parent ==> result[Key(d, y)] == parent[Key(d, y)])
  {
    if names != [] {
      KeysApart(d, y, names[0]);
      MultiValuesResult(d, scope, names[1..], parent[Key(d, names[0]) := MultiSetting(scope, names[0])], y);
    }
  }

  /** Like NoClash, for every declared value name, also one that is an option at the same time. */
  ghost predicate Unambiguous(d: Decl) {
    forall x, y | IsKeyword(d, x) && (y in d.oneValue || y in d.multiValue) :: y != "VALUES_" + x
  }

  /** A name that is an option is never seen as a keyword. */
  lemma {:induction false} OptionNeverSeen(d: Decl, parent: Settings, args: seq<string>, y: string)
    requires Unambiguous(d) && IsOption(d, y) && (y in d.oneValue || y in d.multiValue)
    ensures !IsTrue(Fold(d, Start(parent), args).scope, "SEEN_" + y)
  {
    if args != [] {
      var front, last := args[..|args| - 1], args[|args| - 1];
      OptionNeverSeen(d, parent, front, y);
      CurrentIsOwner(d, parent, front);
      OwnerIsKeyword(d, front);
      NamesApart(y, last);
      if Owner(d, front).Some? {
        NamesApart(Owner(d, front).value, y);
        assert y != "VALUES_" + Owner(d, front).value;
      }
    }
  }

  /** The checks on a one-value name say what the call gave it. */
  lemma OneValueMeaning(d: Decl, parent: Settings, args: seq<string>, y: string)
    requires Unambiguous(d) && (y in d.oneValue || y in d.multiValue) && AllFree(args, ';')
    ensures var scope := Fold(d, Start(parent), args).scope;
      && (BadOne(scope, y) <==> Mentioned(d, args, y) && |Values(d, args, Some(y))| != 1)
      && (!BadOne(scope, y) ==>
           OneSetting(scope, y) == if Mentioned(d, args, y) then Some(Values(d, args, Some(y))[0]) else None)
      && MultiSetting(scope, y) == if Mentioned(d, args, y) then Some(Join(Values(d, args, Some(y)), ';')) else None
  {
    if IsOption(d, y) {
      OptionNeverSeen(d, parent, args, y);
    } else {
      FoldEncodes(d, parent, args, y);
      ValuesAreFree(d, args, Some(y));
      SplitJoin(Values(d, args, Some(y)), ';');
    }
  }

  /** The caller's variable for a name is set so, or unset. */
  predicate Has(d: Decl, parent: Settings, name: string, setting: Option<string>) {
    d.prefix + "_" + name in parent && parent[d.prefix + "_" + name] == setting
  }

  lemma {:induction false} OptionsFalseResult(d: Decl, names: seq<string>, parent: Settings, o: string)
    ensures o in names || Has(d, parent, o, Some("FALSE")) ==> Has(d, OptionsFalse(d, names, parent), o, Some("FALSE"))
  {
    if names != [] {
      KeysApart(d, o, names[0]);
      OptionsFalseResult(d, names[1..], parent[Key(d, names[0]) := Some("FALSE")], o);
    }
  }

  lemma {:induction false} OptionResult(d: Decl, args: seq<string>, o: string)
    requires o in d.options
    ensures Has(d, Fold(d, Start(OptionsFalse(d, d.options, map[])), args).parent, o,
                Some(if o in args then "TRUE" else "FALSE"))
  {
    if args == [] {
      OptionsFalseResult(d, d.options, map[], o);
    } else {
      OptionResult(d, args[..|args| - 1], o);
      KeysApart(d, o, args[|args| - 1]);
    }
  }

  /** The caller's variables say what the call gave: a one-value name its value, a multi-value name its
      joined values, both unset when not mentioned, and an option whether it occurred. */
  predicate Reports(d: Decl, args: seq<string>, parent: Settings) {
    && (forall x | x in d.oneValue :: OneReported(d, args, parent, x))
    && (forall x | x in d.multiValue :: MultiReported(d, args, parent, x))
    && (forall o | o in d.options && o !in d.oneValue && o !in d.multiValue ::
         Has(d, parent, o, Some(if o in args then "TRUE" else "FALSE")))
  }

  predicate OneReported(d: Decl, args: seq<string>, parent: Settings, x: string) {
    var values := Values(d, args, Some(x));
    if Mentioned(d, args, x) then |values| == 1 && Has(d, parent, x, Some(values[0])) else Has(d, parent, x, None)
  }

  predicate MultiReported(d: Decl, args: seq<string>, parent: Settings, x: string) {
    Has(d, parent, x, if Mentioned(d, args, x) then Some(Join(Values(d, args, Some(x)), ';')) else None)
  }

  /** The two loops together, for one name. */
  lemma LoopsReport(d: Decl, args: seq<string>, y: string)
    requires Unambiguous(d) && AllFree(args, ';')
    requires y in d.options || y in d.oneValue || y in d.multiValue
    ensures var e := Fold(d, Start(OptionsFalse(d, d.options, map[])), args);
      var first := OneValues(d, e.scope, d.oneValue, e.parent);
      first.Returned? ==>
        var result := MultiValues(d, e.scope, d.multiValue, first.parent);
        && (y in d.oneValue ==> OneReported(d, args, result, y))
        && (y in d.multiValue ==> MultiReported(d, args, result, y))
        && (y !in d.oneValue && y !in d.multiValue ==> Has(d, result, y, Some(if y in args then "TRUE" else "FALSE")))
  {
    var start := OptionsFalse(d, d.options, map[]);
    var e := Fold(d, Start(start), args);
    var first := OneValues(d, e.scope, d.oneValue, e.parent);
    OneValuesResult(d, e.scope, d.oneValue, e.parent, y);
    if first.Returned? { MultiValuesResult(d, e.scope, d.multiValue, first.parent, y); }
    if y in d.oneValue || y in d.multiValue {
      OneValueMeaning(d, start, args, y);
    } else {
      OptionResult(d, args, y);
    }
  }

  // ----- the outcome of every call -----

  /** Nothing but ALLOW_UNPARSED_ARGS after the five arguments. */
  predicate Allowed(extra: seq<string>) {
    forall k | 0 <= k < |extra| :: extra[k] == "ALLOW_UNPARSED_ARGS"
  }

  lemma {:induction false} UnknownIsFirst(extra: seq<string>)
    ensures Allowed(extra) <==> Unknown(extra) == None
    ensures forall k | 0 <= k < |extra| && Allowed(extra[..k]) && extra[k] != "ALLOW_UNPARSED_ARGS" ::
      Unknown(extra) == Some(extra[k])
  {
    if extra != [] {
      UnknownIsFirst(extra[1..]);
      assert forall k | 0 < k < |extra| :: extra[1..][k - 1] == extra[k];
      forall k | 0 < k < |extra| && Allowed(extra[..k]) && extra[k] != "ALLOW_UNPARSED_ARGS"
        ensures Unknown(extra) == Some(extra[k])
      {
        assert extra[..k][0] == extra[0];
        assert extra[1..][..k - 1] == extra[..k][1..];
        assert extra[1..][k - 1] == extra[k];
      }
    }
  }

  /** An extra argument other than ALLOW_UNPARSED_ARGS always fails, and the first such one is named. */
  lemma UnknownExtraFails(d: Decl, argsList: string, extra: seq<string>, k: nat)
    requires k < |extra| && Allowed(extra[..k]) && extra[k] != "ALLOW_UNPARSED_ARGS"
    ensures Parse(d, argsList, extra) == Fatal("unknown optional argument for fb_cmake_parse_args(): " + extra[k])
  {
    UnknownIsFirst(extra);
  }

  /** Unrecognized arguments always fail a call that does not allow them, whatever was declared. */
  lemma UnrecognizedFails(d: Decl, argsList: string)
    requires Values(d, Elements(argsList), None) != []
    ensures Parse(d, argsList, []).Fatal?
  {
    UnparsedIsAppended(d, OptionsFalse(d, d.options, map[]), Elements(argsList));
  }

  /** Every one-value keyword that is mentioned has exactly one value. */
  predicate AritiesPass(d: Decl, args: seq<string>) {
    forall x | x in d.oneValue :: Mentioned(d, args, x) ==> |Values(d, args, Some(x))| == 1
  }

  predicate Declared(d: Decl, name: string) {
    name in d.options || name in d.oneValue || name in d.multiValue
  }

  lemma {:induction false} OptionsFalseKeys(d: Decl, names: seq<string>, parent: Settings, name: string)
    requires name !in names && d.prefix + "_" + name !in parent
    ensures d.prefix + "_" + name !in OptionsFalse(d, names, parent)
  {
    if names != [] {
      KeysApart(d, name, names[0]);
      OptionsFalseKeys(d, names[1..], parent[Key(d, names[0]) := Some("FALSE")], name);
    }
  }

  lemma {:induction false} FoldKeys(d: Decl, parent: Settings, args: seq<string>, name: string)
    requires name !in d.options && d.prefix + "_" + name !in parent
    ensures d.prefix + "_" + name !in Fold(d, Start(parent), args).parent
  {
    if args != [] {
      KeysApart(d, name, args[|args| - 1]);
      FoldKeys(d, parent, args[..|args| - 1], name);
    }
  }

  /** The caller's variables after the loops, before the unrecognized arguments are looked at. */
  function AfterLoops(d: Decl, args: seq<string>): Outcome {
    var e := Fold(d, Start(OptionsFalse(d, d.options, map[])), args);
    match OneValues(d, e.scope, d.oneValue, e.parent)
    case Fatal(message) => Fatal(message)
    case Returned(parent) => Returned(MultiValues(d, e.scope, d.multiValue, parent))
  }

  lemma LoopsDecide(d: Decl, args: seq<string>)
    requires Unambiguous(d) && AllFree(args, ';')
    ensures AfterLoops(d, args).Returned? <==> AritiesPass(d, args)
    ensures AfterLoops(d, args).Returned? ==> Reports(d, args, AfterLoops(d, args).parent)
  {
    var start := OptionsFalse(d, d.options, map[]);
    var e := Fold(d, Start(start), args);
    OneValuesResult(d, e.scope, d.oneValue, e.parent, "");
    forall x | x in d.oneValue
      ensures BadOne(e.scope, x) <==> Mentioned(d, args, x) && |Values(d, args, Some(x))| != 1
    {
      OneValueMeaning(d, start, args, x);
    }
    if AfterLoops(d, args).Returned? {
      forall y | Declared(d, y)
        ensures var result := AfterLoops(d, args).parent;
          && (y in d.oneValue ==> OneReported(d, args, result, y))
          && (y in d.multiValue ==> MultiReported(d, args, result, y))
          && (y !in d.oneValue && y !in d.multiValue ==> Has(d, result, y, Some(if y in args then "TRUE" else "FALSE")))
      {
        LoopsReport(d, args, y);
      }
    }
  }

  lemma LoopsSetDeclaredOnly(d: Decl, args: seq<string>, name: string)
    requires !Declared(d, name) && AfterLoops(d, args).Returned?
    ensures d.prefix + "_" + name !in AfterLoops(d, args).parent
  {
    var start := OptionsFalse(d, d.options, map[]);
    var e := Fold(d, Start(start), args);
    OptionsFalseKeys(d, d.options, map[], name);
    FoldKeys(d, start, args, name);
    OneValuesResult(d, e.scope, d.oneValue, e.parent, name);
    MultiValuesResult(d, e.scope, d.multiValue, OneValues(d, e.scope, d.oneValue, e.parent).parent, name);
  }

  lemma HasStays(d: Decl, parent: Settings, y: string, value: Option<string>, name: string, setting: Option<string>)
    requires y != name && Has(d, parent, y, value)
    ensures Has(d, parent[Key(d, name) := setting], y, value)
  {
    KeysApart(d, y, name);
  }

  /** Setting an undeclared name leaves what is reported. */
  lemma ReportsStay(d: Decl, args: seq<string>, parent: Settings, name: string, setting: Option<string>)
    requires !Declared(d, name) && Reports(d, args, parent)
    ensures Reports(d, args, parent[Key(d, name) := setting])
  {
    var parent' := parent[Key(d, name) := setting];
    forall x | x in d.oneValue ensures OneReported(d, args, parent', x) {
      assert OneReported(d, args, parent, x);
      var values := Values(d, args, Some(x));
      HasStays(d, parent, x, if Mentioned(d, args, x) then Some(values[0]) else None, name, setting);
    }
    forall x | x in d.multiValue ensures MultiReported(d, args, parent', x) {
      assert MultiReported(d, args, parent, x);
      HasStays(d, parent, x, if Mentioned(d, args, x) then Some(Join(Values(d, args, Some(x)), ';')) else None, name, setting);
    }
    forall o | o in d.options && o !in d.oneValue && o !in d.multiValue
      ensures Has(d, parent', o, Some(if o in args then "TRUE" else "FALSE"))
    {
      HasStays(d, parent, o, Some(if o in args then "TRUE" else "FALSE"), name, setting);
    }
  }

  /** What a call sets for the unrecognized arguments: a text that denotes them unless the first of several is
      empty; and nothing if there are none, unless the caller declared a name like that. */
  predicate UnparsedReported(d: Decl, args: seq<string>, parent: Settings) {
    var rest := Values(d, args, None);
    if rest != [] then
      && d.prefix + "_UNPARSED_ARGUMENTS" in parent && parent[d.prefix + "_UNPARSED_ARGUMENTS"].Some?
      && (Split(parent[d.prefix + "_UNPARSED_ARGUMENTS"].value, ';') == rest <==> !(|rest| >= 2 && rest[0] == ""))
    else
      d.prefix + "_UNPARSED_ARGUMENTS" in parent ==> Declared(d, "UNPARSED_ARGUMENTS")
  }

  lemma ParseFinishesLoops(d: Decl, argsList: string, extra: seq<string>)
    requires Allowed(extra)
    ensures var args := Elements(argsList);
      var rest, loops := Values(d, args, None), AfterLoops(d, args);
      Parse(d, argsList, extra)
        == if loops.Fatal? || rest == [] then loops
           else if extra == [] then Fatal("unrecognized arguments: " + AppendAll(rest))
           else Returned(loops.parent[Key(d, "UNPARSED_ARGUMENTS") := Some(AppendAll(rest))])
  {
    UnknownIsFirst(extra);
    UnparsedIsAppended(d, OptionsFalse(d, d.options, map[]), Elements(argsList));
  }

  /** A call without unrecognized arguments. */
  predicate Recognized(d: Decl, argsList: string, extra: seq<string>) {
    Unknown(extra) == None && Values(d, Elements(argsList), None) == []
  }

  /** The call fails exactly when some one-value keyword is mentioned without exactly one value, a single empty
      string being one; otherwise it reports what it was given. */
  predicate ArityChecked(d: Decl, argsList: string, extra: seq<string>) {
    var args, r := Elements(argsList), Parse(d, argsList, extra);
    && (r.Returned? ==> Reports(d, args, r.parent))
    && (r.Fatal? <==> exists x <- d.oneValue :: Mentioned(d, args, x) && |Values(d, args, Some(x))| != 1)
  }

  lemma UnambiguousIsChecked(d: Decl, argsList: string, extra: seq<string>)
    requires Unambiguous(d) && Recognized(d, argsList, extra)
    ensures ArityChecked(d, argsList, extra)
  {
    SplitIsFree(argsList, ';');
    UnknownIsFirst(extra);
    LoopsDecide(d, Elements(argsList));
    ParseFinishesLoops(d, argsList, extra);
  }

  // ----- what a name VALUES_x does to the checks -----

  /** The variables after two arguments. */
  lemma FoldTwo(d: Decl, start: Env, a: string, b: string)
    ensures Fold(d, start, [a, b]) == Step(d, Step(d, start, a), b)
  {
    var args := [a, b];
    assert args[..1] == [a] && [a][..0] == [];
    assert Fold(d, start, []) == start;
    assert Fold(d, start, [a]) == Step(d, start, a);
  }

  lemma ElementsOfTwo(a: string, b: string)
    requires Free(a, ';') && Free(b, ';')
    ensures Elements(a + ";" + b) == [a, b]
  {
    SplitPiece(a, b, ';');
    SplitPiece(b, "", ';');
    assert ';' in a + ";" + b;
  }

  /** Keyword x and one value for it. */
  lemma KeywordAndValue(d: Decl, parent: Settings, x: string, v: string)
    requires IsKeyword(d, x) && IsValue(d, v)
    ensures Values(d, [x, v], None) == [] && Values(d, [x, v], Some(x)) == [v]
    ensures Fold(d, Start(parent), [x, v]).scope
      == map["SEEN_" + x := "TRUE"]["VALUES_" + x := v]["SEEN_" + ("VALUES_" + x) := "TRUE"]
  {
    FoldTwo(d, Start(parent), x, v);
    NamesApart(x, x);
    NamesApart(x, "VALUES_" + x);
    assert [x, v][..1] == [x] && [x][..0] == [];
    assert Owner(d, [x]) == Some(x) && Values(d, [], None) == [] && Values(d, [], Some(x)) == [];
    assert Values(d, [x], None) == [] && Values(d, [x], Some(x)) == [];
  }

  /** With that recorded, VALUES_x alone seems to be mentioned and to lack a value. */
  lemma OnlyClashLacksValue(scope: Scope, x: string, y: string, v: string, k: string)
    requires y == "VALUES_" + x && Free(v, ';')
    requires scope == map["SEEN_" + x := "TRUE"][y := v]["SEEN_" + y := "TRUE"]
    ensures BadOne(scope, k) <==> k == y
    ensures k == y ==> IsTrue(scope, "SEEN_" + k) && Get(scope, "VALUES_" + k) == ""
  {
    NamesApart(x, k);
    NamesApart(k, x);
    NamesApart(k, y);
    NamesApart(x, x);
    SplitPiece(v, "", ';');
  }

  /** A correct call that mentions x makes the function believe that VALUES_x was mentioned: it
      fails for lack of a value if that is a one-value name, and otherwise sets it instead of leaving it unset. */
  lemma ClashInventsMention(d: Decl, x: string, y: string, v: string)
    requires IsKeyword(d, x) && (y in d.oneValue || y in d.multiValue) && y == "VALUES_" + x && IsValue(d, v)
    requires Free(x, ';') && Free(v, ';')
    ensures Recognized(d, x + ";" + v, [])
    ensures forall k | Mentioned(d, [x, v], k) :: k == x && |Values(d, [x, v], Some(k))| == 1
    ensures Parse(d, x + ";" + v, []).Fatal? <==> y in d.oneValue
    ensures y !in d.oneValue ==> Has(d, Parse(d, x + ";" + v, []).parent, y, Some(""))
    ensures !ArityChecked(d, x + ";" + v, [])
  {
    var start := OptionsFalse(d, d.options, map[]);
    var e := Fold(d, Start(start), [x, v]);
    ElementsOfTwo(x, v);
    KeywordAndValue(d, start, x, v);
    UnparsedIsAppended(d, start, [x, v]);
    forall k ensures BadOne(e.scope, k) <==> k == y {
      OnlyClashLacksValue(e.scope, x, y, v, k);
    }
    OnlyClashLacksValue(e.scope, x, y, v, y);
    var first := OneValues(d, e.scope, d.oneValue, e.parent);
    OneValuesResult(d, e.scope, d.oneValue, e.parent, y);
    if first.Returned? { MultiValuesResult(d, e.scope, d.multiValue, first.parent, y); }
    assert !Mentioned(d, [x, v], y);
  }

  /** And a one-value keyword x that was given no value passes the check after a mention of VALUES_x,
      unless that one-value keyword itself is missed a value. */
  lemma ClashHidesMissingValue(d: Decl, x: string, y: string)
    requires IsKeyword(d, x) && x in d.oneValue && IsKeyword(d, y) && y == "VALUES_" + x
    requires Free(x, ';') && Free(y, ';')
    ensures Mentioned(d, [y, x], x) && Values(d, [y, x], Some(x)) == [] && Recognized(d, y + ";" + x, [])
    ensures Parse(d, y + ";" + x, []).Returned? <==> y !in d.oneValue
    ensures y !in d.oneValue ==> Has(d, Parse(d, y + ";" + x, []).parent, x, Some(""))
  {
    var start := OptionsFalse(d, d.options, map[]);
    var e := Fold(d, Start(start), [y, x]);
    ElementsOfTwo(y, x);
    FoldTwo(d, Start(start), y, x);
    assert [y, x][..1] == [y] && [y][..0] == [];
    assert Values(d, [], Some(x)) == [] && Values(d, [y], Some(x)) == [];
    assert Values(d, [], None) == [] && Values(d, [y], None) == [];
    UnparsedIsAppended(d, start, [y, x]);
    assert e.scope == map["SEEN_" + y := "TRUE"]["SEEN_" + x := "TRUE"];
    forall k ensures BadOne(e.scope, k) <==> k == y {
      OnlySeen(e.scope, x, y, k);
    }
    OneValuesResult(d, e.scope, d.oneValue, e.parent, x);
    var first := OneValues(d, e.scope, d.oneValue, e.parent);
    if first.Returned? { MultiValuesResult(d, e.scope, d.multiValue, first.parent, x); }
    OnlySeen(e.scope, x, y, x);
  }

  /** With just the two mentions recorded, VALUES_x alone lacks a value. */
  lemma OnlySeen(scope: Scope, x: string, y: string, k: string)
    requires y == "VALUES_" + x && scope == map["SEEN_" + y := "TRUE"]["SEEN_" + x := "TRUE"]
    ensures BadOne(scope, k) <==> k == y
    ensures IsTrue(scope, "SEEN_" + x) && Get(scope, "VALUES_" + k) == ""
  {
    NamesApart(k, x);
    NamesApart(k, y);
    NamesApart(x, x);
  }

  /** The longest of some names. */
  function LongestLength(names: seq<string>): (n: nat)
    ensures forall name | name in names :: |name| <= n
  {
    if names == [] then 0
    else
      var rest := LongestLength(names[1..]);
      if rest < |names[0]| then |names[0]| else rest
  }

  /** An argument that is no name at all. */
  lemma SomeValue(d: Decl) returns (v: string)
    ensures IsValue(d, v) && Free(v, ';')
  {
    var names := d.options + d.oneValue + d.multiValue;
    v := seq(LongestLength(names) + 1, i => 'v');
    assert v !in names;
  }

  /** Main result on arities: every call without unrecognized arguments is checked and reported correctly exactly
      when no declared value name is VALUES_ followed by a keyword. */
  lemma ArityIsCheckedExactly(d: Decl)
    requires Declarable(d)
    ensures (forall argsList, extra | Recognized(d, argsList, extra) :: ArityChecked(d, argsList, extra)) <==> Unambiguous(d)
  {
    if Unambiguous(d) {
      forall argsList, extra | Recognized(d, argsList, extra) ensures ArityChecked(d, argsList, extra) {
        UnambiguousIsChecked(d, argsList, extra);
      }
    } else {
      var x, y :| IsKeyword(d, x) && (y in d.oneValue || y in d.multiValue) && y == "VALUES_" + x;
      var v := SomeValue(d);
      assert Free(x, ';') by { assert x in d.oneValue || x in d.multiValue; }
      ClashInventsMention(d, x, y, v);
    }
  }

  /** A call returns exactly when it has no unknown extra argument, every one-value keyword mentioned has one value, and
      unrecognized arguments are allowed or absent. It then reports the unrecognized arguments and every declared
      name, as long as these do not share a name. */
  predicate CallDecided(d: Decl, argsList: string, extra: seq<string>) {
    var args, r := Elements(argsList), Parse(d, argsList, extra);
    && (r.Returned? <==> Allowed(extra) && AritiesPass(d, args) && (Values(d, args, None) == [] || extra != []))
    && (r.Returned? ==> UnparsedReported(d, args, r.parent))
    && (r.Returned? && (Values(d, args, None) == [] || !Declared(d, "UNPARSED_ARGUMENTS")) ==> Reports(d, args, r.parent))
  }

  /** Main result on whole calls: all of them are decided right exactly when no declared value name is VALUES_
      followed by a keyword. */
  lemma CallsAreDecidedExactly(d: Decl)
    requires Declarable(d)
    ensures (forall argsList, extra :: CallDecided(d, argsList, extra)) <==> Unambiguous(d)
  {
    if Unambiguous(d) {
      forall argsList, extra ensures CallDecided(d, argsList, extra) { UnambiguousIsDecided(d, argsList, extra); }
    } else {
      var x, y :| IsKeyword(d, x) && (y in d.oneValue || y in d.multiValue) && y == "VALUES_" + x;
      var v := SomeValue(d);
      assert Free(x, ';') by { assert x in d.oneValue || x in d.multiValue; }
      ClashIsNotDecided(d, x, y, v);
    }
  }

  lemma ClashIsNotDecided(d: Decl, x: string, y: string, v: string)
    requires IsKeyword(d, x) && (y in d.oneValue || y in d.multiValue) && y == "VALUES_" + x && IsValue(d, v)
    requires Free(x, ';') && Free(v, ';')
    ensures !CallDecided(d, x + ";" + v, [])
  {
    ClashInventsMention(d, x, y, v);
    ElementsOfTwo(x, v);
    assert AritiesPass(d, [x, v]);
  }

  lemma UnambiguousIsDecided(d: Decl, argsList: string, extra: seq<string>)
    requires Unambiguous(d)
    ensures CallDecided(d, argsList, extra)
  {
    SplitIsFree(argsList, ';');
    LoopsDecide(d, Elements(argsList));
    UnknownIsFirst(extra);
    if Allowed(extra) { ParseFinishesLoops(d, argsList, extra); }
    if Parse(d, argsList, extra).Returned? { ReturnedCallReports(d, argsList, extra); }
  }

  lemma ReturnedCallReports(d: Decl, argsList: string, extra: seq<string>)
    requires Unambiguous(d) && Allowed(extra) && Parse(d, argsList, extra).Returned?
    ensures Values(d, Elements(argsList), None) == [] || !Declared(d, "UNPARSED_ARGUMENTS") ==>
      Reports(d, Elements(argsList), Parse(d, argsList, extra).parent)
    ensures UnparsedReported(d, Elements(argsList), Parse(d, argsList, extra).parent)
  {
    var args := Elements(argsList);
    var rest, loops := Values(d, args, None), AfterLoops(d, args);
    SplitIsFree(argsList, ';');
    ParseFinishesLoops(d, argsList, extra);
    LoopsDecide(d, args);
    if !Declared(d, "UNPARSED_ARGUMENTS") {
      LoopsSetDeclaredOnly(d, args, "UNPARSED_ARGUMENTS");
      ReportsStay(d, args, loops.parent, "UNPARSED_ARGUMENTS", Some(AppendAll(rest)));
    }
    UnparsedKey(d);
    if rest != [] {
      ValuesAreFree(d, args, None);
      PiecesOfAppended(rest);
    }
  }

  lemma UnparsedKey(d: Decl)
    ensures d.prefix + "_" + "UNPARSED_ARGUMENTS" == d.prefix + "_UNPARSED_ARGUMENTS"
  {
    assert "_" + "UNPARSED_ARGUMENTS" == "_UNPARSED_ARGUMENTS";
    assert d.prefix + "_" + "UNPARSED_ARGUMENTS" == d.prefix + ("_" + "UNPARSED_ARGUMENTS");
  }

  /** The message of a call that fails its arities is about the first one-value name that does not have one value. */
  lemma ArityFailureIsNamed(d: Decl, argsList: string, extra: seq<string>, k: nat)
    requires Unambiguous(d) && Allowed(extra) && k < |d.oneValue|
    requires var args := Elements(argsList);
      && Mentioned(d, args, d.oneValue[k]) && |Values(d, args, Some(d.oneValue[k]))| != 1
      && forall m | 0 <= m < k :: Mentioned(d, args, d.oneValue[m]) ==> |Values(d, args, Some(d.oneValue[m]))| == 1
    ensures var x, values := d.oneValue[k], Values(d, Elements(argsList), Some(d.oneValue[k]));
      Parse(d, argsList, extra) == Fatal(
        if values == [] then "argument " + x + " was specified without a value"
        else "too many arguments specified for " + x + ": " + Join(values, ';'))
  {
    var args := Elements(argsList);
    var start := OptionsFalse(d, d.options, map[]);
    var e := Fold(d, Start(start), args);
    SplitIsFree(argsList, ';');
    UnknownIsFirst(extra);
    forall m | 0 <= m <= k
      ensures BadOne(e.scope, d.oneValue[m]) <==> m == k
    {
      OneValueMeaning(d, start, args, d.oneValue[m]);
    }
    FoldEncodes(d, start, args, d.oneValue[k]);
    FirstBadOneFails(d, e.scope, d.oneValue, e.parent, k);
  }

  lemma {:induction false} FirstBadOneFails(d: Decl, scope: Scope, names: seq<string>, parent: Settings, k: nat)
    requires k < |names| && BadOne(scope, names[k]) && forall m | 0 <= m < k :: !BadOne(scope, names[m])
    ensures OneValues(d, scope, names, parent) == Fatal(
      if !IsTrue(scope, "SEEN_VALUES_" + names[k]) then "argument " + names[k] + " was specified without a value"
      else "too many arguments specified for " + names[k] + ": " + Get(scope, "VALUES_" + names[k]))
  {
    if k > 0 {
      assert forall m | 0 < m < |names| :: names[1..][m - 1] == names[m];
      FirstBadOneFails(d, scope, names[1..], parent[Key(d, names[0]) := OneSetting(scope, names[0])], k - 1);
    }
  }

  /** A list passed as one string arrives as it was, unless it is a single empty element, which arrives as no element. */
  lemma ArgumentsArriveExactly(args: seq<string>)
    requires AllFree(args, ';')
    ensures Elements(Join(args, ';')) == args <==> args != [""]
  {
    SplitJoin(args, ';');
  }
}

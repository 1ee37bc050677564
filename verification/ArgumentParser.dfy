/**
 The command-line parser (common/argument_parser.cc): registration of options with their aliases, and
 the segmentation of the tokens. Help texts, metavars and the conversion of values are left out.
*/
module ArgumentParsers {

  /** One use of an option: the name that was written, and the tokens taken as its values. */
  datatype Occurrence = Occurrence(name: string, values: seq<string>)

  // The grammar. Options are identified by values of any type A; `arity` is their number of values.

  function Flatten(os: seq<Occurrence>): seq<string> {
    if os == [] then [] else [os[0].name] + os[0].values + Flatten(os[1..])
  }

  ghost predicate Proper<A>(o: Occurrence, names: map<string, A>, arity: map<A, nat>) {
    o.name in names && names[o.name] in arity && |o.values| == arity[names[o.name]]
  }

  /** The tokens are these occurrences, each with a registered name and as many values as it asks for. */
  ghost predicate Segments<A>(tokens: seq<string>, os: seq<Occurrence>, names: map<string, A>, arity: map<A, nat>) {
    Flatten(os) == tokens && forall o :: o in os ==> Proper(o, names, arity)
  }

  ghost predicate Occurs<A>(os: seq<Occurrence>, names: map<string, A>, a: A) {
    exists o :: o in os && o.name in names && names[o.name] == a
  }

  /** The values of all occurrences of an option, under whatever name, in their order. */
  ghost function ValuesOf<A>(os: seq<Occurrence>, names: map<string, A>, a: A): seq<string> {
    if os == [] then []
    else (if os[0].name in names && names[os[0].name] == a then os[0].values else []) + ValuesOf(os[1..], names, a)
  }

  lemma {:induction false} FlattenLast(os: seq<Occurrence>, o: Occurrence)
    ensures Flatten(os + [o]) == Flatten(os) + [o.name] + o.values
  {
    if os == [] {
      assert os + [o] == [o] && [o][1..] == [];
    } else {
      FlattenLast(os[1..], o);
      assert (os + [o])[1..] == os[1..] + [o] && (os + [o])[0] == os[0];
      var first := [os[0].name] + os[0].values;
      assert first + (Flatten(os[1..]) + [o.name] + o.values) == (first + Flatten(os[1..])) + [o.name] + o.values;
    }
  }

  lemma {:induction false} ValuesOfLast<A>(os: seq<Occurrence>, o: Occurrence, names: map<string, A>, a: A)
    ensures ValuesOf(os + [o], names, a) ==
            ValuesOf(os, names, a) + if o.name in names && names[o.name] == a then o.values else []
  {
    if os == [] {
      assert os + [o] == [o] && [o][1..] == [];
    } else {
      ValuesOfLast(os[1..], o, names, a);
      assert (os + [o])[1..] == os[1..] + [o] && (os + [o])[0] == os[0];
    }
  }

  lemma OccursLast<A>(os: seq<Occurrence>, o: Occurrence, names: map<string, A>, a: A)
    ensures Occurs(os + [o], names, a) <==> Occurs(os, names, a) || (o.name in names && names[o.name] == a)
  {
    forall x ensures x in os + [o] <==> x in os || x == o {}
  }

  /** If one list of tokens begins another, its segmentation begins that of the other. */
  lemma {:induction false} SegmentsAgree<A>(os: seq<Occurrence>, os': seq<Occurrence>, more: seq<string>,
                                            names: map<string, A>, arity: map<A, nat>)
    requires Segments(Flatten(os), os, names, arity) && Segments(Flatten(os) + more, os', names, arity)
    ensures os <= os' && Flatten(os'[|os|..]) == more
  {
    if os == [] {
      assert os' == os'[|os|..];
      assert Flatten(os) + more == more;
    } else {
      FirstsAgree(os, os', more, names, arity);
      SegmentsAgree(os[1..], os'[1..], more, names, arity);
      assert os'[1..][|os[1..]|..] == os'[|os|..];
    }
  }

  lemma SplitsAlike<T>(a: seq<T>, b: seq<T>, a': seq<T>, b': seq<T>, more: seq<T>)
    requires |a| == |a'| && a' + b' == (a + b) + more
    ensures a' == a && b' == b + more
  {
    assert a' == (a' + b')[..|a|] && a == ((a + b) + more)[..|a|];
    assert b' == (a' + b')[|a|..] && b + more == ((a + b) + more)[|a|..];
  }

  // The first names are the same token, so the options ask for the same number of values.
  lemma FirstsAgree<A>(os: seq<Occurrence>, os': seq<Occurrence>, more: seq<string>,
                       names: map<string, A>, arity: map<A, nat>)
    requires os != [] && Segments(Flatten(os), os, names, arity) && Segments(Flatten(os) + more, os', names, arity)
    ensures os' != [] && os'[0] == os[0] && Flatten(os'[1..]) == Flatten(os[1..]) + more
  {
    assert Flatten(os)[0] == os[0].name && Flatten(os')[0] == os'[0].name;
    assert Proper(os[0], names, arity) && Proper(os'[0], names, arity);
    var first, first' := [os[0].name] + os[0].values, [os'[0].name] + os'[0].values;
    SplitsAlike(first, Flatten(os[1..]), first', Flatten(os'[1..]), more);
    assert os[0].values == first[1..] && os'[0].values == first'[1..];
  }

  /** Tokens can be segmented in one way only, even when a value spells the name of an option. */
  lemma OnlySegmentation<A>(tokens: seq<string>, read: seq<Occurrence>, names: map<string, A>, arity: map<A, nat>)
    requires Segments(tokens, read, names, arity)
    ensures forall os :: Segments(tokens, os, names, arity) ==> os == read
  {
    forall os | Segments(tokens, os, names, arity)
      ensures os == read
    {
      assert tokens + [] == tokens;
      SegmentsAgree(os, read, [], names, arity);
      SegmentsAgree(read, os, [], names, arity);
    }
  }

  /** A segmented list of tokens begins with a registered name, and its values follow. */
  lemma FirstOccurrence<A>(tokens: seq<string>, os: seq<Occurrence>, names: map<string, A>, arity: map<A, nat>)
    requires Segments(tokens, os, names, arity) && tokens != []
    ensures tokens[0] in names && names[tokens[0]] in arity && arity[names[tokens[0]]] < |tokens|
  {
    assert Proper(os[0], names, arity);
  }

  /** Dropping the first occurrences leaves a segmentation of the tokens that are left. */
  lemma RestSegments<A>(os: seq<Occurrence>, os': seq<Occurrence>, more: seq<string>,
                        names: map<string, A>, arity: map<A, nat>)
    requires Segments(Flatten(os), os, names, arity) && Segments(Flatten(os) + more, os', names, arity)
    ensures os <= os' && Segments(more, os'[|os|..], names, arity)
  {
    SegmentsAgree(os, os', more, names, arity);
  }

  /** No list of tokens that goes on with an unknown name, or with too few values, can be segmented. */
  lemma NoneBeyond<A>(os: seq<Occurrence>, more: seq<string>, names: map<string, A>, arity: map<A, nat>)
    requires Segments(Flatten(os), os, names, arity) && more != []
    requires more[0] in names && names[more[0]] in arity ==> |more| <= arity[names[more[0]]]
    ensures forall os' :: !Segments(Flatten(os) + more, os', names, arity)
  {
    forall os' | Segments(Flatten(os) + more, os', names, arity)
      ensures false
    {
      RestSegments(os, os', more, names, arity);
      FirstOccurrence(more, os'[|os|..], names, arity);
    }
  }

  /** The parser gives up before a name nobody registered. */
  ghost predicate AtUnknown<A>(tokens: seq<string>, read: seq<Occurrence>, names: map<string, A>, arity: map<A, nat>) {
    var n := |Flatten(read)|;
    n < |tokens| && Segments(tokens[..n], read, names, arity) && tokens[n] !in names
  }

  /** The parser gives up at the end of the tokens, in the values of an option. */
  ghost predicate InValues<A>(tokens: seq<string>, whole: seq<Occurrence>, last: Occurrence,
                              names: map<string, A>, arity: map<A, nat>) {
    && Segments(Flatten(whole), whole, names, arity)
    && tokens == Flatten(whole) + ([last.name] + last.values)
    && last.name in names && names[last.name] in arity && |last.values| < arity[names[last.name]]
  }

  /** Where the parser gives up. */
  ghost predicate Stuck<A>(tokens: seq<string>, read: seq<Occurrence>, names: map<string, A>, arity: map<A, nat>) {
    || AtUnknown(tokens, read, names, arity)
    || (read != [] && InValues(tokens, read[..|read| - 1], read[|read| - 1], names, arity))
  }

  lemma UnknownMeansNone<A>(tokens: seq<string>, read: seq<Occurrence>, names: map<string, A>, arity: map<A, nat>)
    requires AtUnknown(tokens, read, names, arity)
    ensures forall os :: !Segments(tokens, os, names, arity)
  {
    var n := |Flatten(read)|;
    assert tokens == Flatten(read) + tokens[n..];
    NoneBeyond(read, tokens[n..], names, arity);
  }

  /** The parser gives up only on tokens that nothing segments. */
  lemma StuckMeansNone<A>(tokens: seq<string>, read: seq<Occurrence>, names: map<string, A>, arity: map<A, nat>)
    requires Stuck(tokens, read, names, arity)
    ensures forall os :: !Segments(tokens, os, names, arity)
  {
    if AtUnknown(tokens, read, names, arity) {
      UnknownMeansNone(tokens, read, names, arity);
    } else {
      var last := read[|read| - 1];
      NoneBeyond(read[..|read| - 1], [last.name] + last.values, names, arity);
    }
  }

  /** Segmentation goes on with an option and its values. */
  lemma SegmentsMore<A>(tokens: seq<string>, i: nat, k: nat, read: seq<Occurrence>,
                        names: map<string, A>, arity: map<A, nat>)
    requires i + k < |tokens| && Segments(tokens[..i], read, names, arity)
    requires tokens[i] in names && names[tokens[i]] in arity && arity[names[tokens[i]]] == k
    ensures Segments(tokens[..i + k + 1], read + [Occurrence(tokens[i], tokens[i + 1..i + k + 1])], names, arity)
  {
    var o := Occurrence(tokens[i], tokens[i + 1..i + k + 1]);
    FlattenLast(read, o);
    assert tokens[..i + k + 1] == tokens[..i] + [tokens[i]] + tokens[i + 1..i + k + 1];
    assert forall x :: x in read + [o] ==> x in read || x == o;
  }

  lemma StuckInValues<A>(tokens: seq<string>, i: nat, read: seq<Occurrence>, names: map<string, A>, arity: map<A, nat>)
    requires i < |tokens| && Segments(tokens[..i], read, names, arity)
    requires tokens[i] in names && names[tokens[i]] in arity && i + arity[names[tokens[i]]] >= |tokens|
    ensures Stuck(tokens, read + [Occurrence(tokens[i], tokens[i + 1..|tokens|])], names, arity)
  {
    var o := Occurrence(tokens[i], tokens[i + 1..|tokens|]);
    assert tokens == tokens[..i] + ([tokens[i]] + tokens[i + 1..|tokens|]);
    assert (read + [o])[..|read + [o]| - 1] == read;
  }

  /** What an option holds. */
  datatype Setting = Setting(isSet: bool, values: seq<string>, nargs: nat)

  /** The options after the occurrences, one after the other, set them and added their values. */
  ghost function After<A>(before: map<A, Setting>, names: map<string, A>, os: seq<Occurrence>): (after: map<A, Setting>)
    ensures after.Keys == before.Keys
  {
    if os == [] then before
    else
      var last := os[|os| - 1];
      var s := After(before, names, os[..|os| - 1]);
      if last.name in names && names[last.name] in s then
        var a := names[last.name];
        s[a := Setting(true, s[a].values + last.values, s[a].nargs)]
      else s
  }

  lemma AfterMore<A>(before: map<A, Setting>, names: map<string, A>, os: seq<Occurrence>, o: Occurrence)
    requires o.name in names && names[o.name] in before
    ensures var a, s := names[o.name], After(before, names, os);
            After(before, names, os + [o]) == s[a := Setting(true, s[a].values + o.values, s[a].nargs)]
  {
    assert (os + [o])[..|os + [o]| - 1] == os;
  }

  /**
   So an option is set exactly if it was before or one of its names occurs, and its values are those it
   had and then those of all its occurrences in their order.
  */
  lemma {:induction false} AfterMeans<A>(before: map<A, Setting>, names: map<string, A>, os: seq<Occurrence>, a: A)
    requires a in before
    ensures After(before, names, os)[a] ==
            Setting(before[a].isSet || Occurs(os, names, a),
                    before[a].values + ValuesOf(os, names, a),
                    before[a].nargs)
  {
    if os != [] {
      var last := os[|os| - 1];
      var rest := os[..|os| - 1];
      assert os == rest + [last];
      AfterMeans(before, names, rest, a);
      ValuesOfLast(rest, last, names, a);
      OccursLast(rest, last, names, a);
    }
  }

  class Argument {
    var isSet: bool
    var nargs: nat
    var values: seq<string>

    constructor ()
      ensures !isSet && nargs == 0 && values == []
    {
      isSet, nargs, values := false, 0, [];
    }
  }

  /** The number of values of every option. */
  ghost function Arity(options: set<Argument>): map<Argument, nat>
    reads options
  {
    map a | a in options :: a.nargs
  }

  ghost function Settings(options: set<Argument>): map<Argument, Setting>
    reads options
  {
    map a | a in options :: Setting(a.isSet, a.values, a.nargs)
  }

  lemma SettingsMean(options: set<Argument>, before: map<Argument, Setting>, names: map<string, Argument>,
                     read: seq<Occurrence>)
    requires before.Keys == options && Settings(options) == After(before, names, read)
    ensures forall a :: a in options ==>
              && a.isSet == (before[a].isSet || Occurs(read, names, a))
              && a.values == before[a].values + ValuesOf(read, names, a)
              && a.nargs == before[a].nargs
  {
    forall a | a in options
      ensures Settings(options)[a] == Setting(before[a].isSet || Occurs(read, names, a),
                                              before[a].values + ValuesOf(read, names, a), before[a].nargs)
    {
      AfterMeans(before, names, read, a);
    }
  }

  class ArgumentParser {
    var arguments: map<string, Argument>
    var argList: seq<string>
    var addHelp: bool

    constructor ()
      ensures arguments == map[] && argList == [] && addHelp
    {
      arguments, argList, addHelp := map[], [], true;
    }

    /** Registers a new option under all the names; names that other options had are taken from them. */
    method AddArgument(names: seq<string>) returns (argument: Argument)
      requires names != []
      modifies this`arguments, this`argList
      ensures fresh(argument) && !argument.isSet && argument.nargs == 0 && argument.values == []
      ensures argList == old(argList) + [names[0]]
      ensures forall n :: n in arguments <==> n in old(arguments) || n in names
      ensures forall n :: n in arguments ==>
                arguments[n] == if n in names then argument else old(arguments)[n]
    {
      argument := new Argument();
      var left := names;
      argList := argList + [left[0]];
      arguments := arguments[left[0] := argument];
      left := left[1..];
      while left != []
        modifies this`arguments
        invariant |left| <= |names| && left == names[|names| - |left|..]
        invariant forall n :: n in arguments <==> n in old(arguments) || n in names[..|names| - |left|]
        invariant forall n :: n in arguments ==>
                    arguments[n] == if n in names[..|names| - |left|] then argument else old(arguments)[n]
      {
        arguments := arguments[left[0] := argument];
        assert names[..|names| - |left| + 1] == names[..|names| - |left|] + [left[0]];
        left := left[1..];
      }
      assert names == names[..|names| - |left|];
    }

    /** Sets the option whose name is at `start` and takes its values, the inner loop of parse_args. */
    method TakeOption(argument: Argument, tokens: seq<string>, start: nat, ghost options: set<Argument>)
      returns (i: nat, ok: bool)
      requires start < |tokens| && argument in options
      modifies argument
      ensures ok <==> start + argument.nargs < |tokens|
      ensures ok ==> i == start + argument.nargs
      ensures argument.nargs == old(argument.nargs)
      ensures Settings(options) == old(Settings(options))[argument :=
                Setting(true, old(argument.values) + tokens[start + 1..if ok then i + 1 else |tokens|], argument.nargs)]
    {
      argument.isSet := true;
      i := start;
      var j := 0;
      while j < argument.nargs
        modifies argument`values
        invariant 0 <= j <= argument.nargs && i == start + j < |tokens|
        invariant argument.values == old(argument.values) + tokens[start + 1..i + 1]
      {
        i := i + 1;
        if i < |tokens| {
          assert tokens[start + 1..i + 1] == tokens[start + 1..i] + [tokens[i]];
          argument.values := argument.values + [tokens[i]];
        } else {
          return i, false;
        }
        j := j + 1;
      }
      ok := true;
    }

    /** The main loop of parse_args. `read` is what it has recognised when it stops. */
    method ParseTokens(tokens: seq<string>) returns (ok: bool, ghost read: seq<Occurrence>)
      modifies arguments.Values
      ensures ok ==> Segments(tokens, read, arguments, old(Arity(arguments.Values)))
      ensures !ok ==> Stuck(tokens, read, arguments, old(Arity(arguments.Values)))
      ensures Settings(arguments.Values) == After(old(Settings(arguments.Values)), arguments, read)
    {
      read := [];
      var i := 0;
      ghost var options := arguments.Values;
      ghost var before, arity := Settings(options), Arity(options);
      while i < |tokens|
        invariant 0 <= i <= |tokens|
        invariant forall a :: a in options ==> a.nargs == old(a.nargs)
        invariant Segments(tokens[..i], read, arguments, arity)
        invariant Settings(options) == After(before, arguments, read)
      {
        if tokens[i] in arguments {
          var argument := arguments[tokens[i]];
          ghost var name, start, known := tokens[i], i, read;
          i, ok := TakeOption(argument, tokens, i, options);
          ghost var o := Occurrence(name, tokens[start + 1..if ok then i + 1 else |tokens|]);
          read := known + [o];
          AfterMore(before, arguments, known, o);
          if !ok {
            StuckInValues(tokens, start, known, arguments, arity);
            return;
          }
          SegmentsMore(tokens, start, argument.nargs, known, arguments, arity);
          i := i + 1;
          assert Segments(tokens[..i], read, arguments, arity);
        } else {
          ok := false;
          assert Flatten(read) == tokens[..i];
          return;
        }
      }
      ok := true;
    }

    /** is_set. */
    method IsSet(name: string) returns (set_: bool)
      ensures set_ <==> name in arguments && arguments[name].isSet
    {
      if name !in arguments {
        return false;
      }
      return arguments[name].isSet;
    }

    /** Is the token list one to accept: segmentable, and without a request for help? */
    ghost predicate Acceptable(tokens: seq<string>, os: seq<Occurrence>)
      reads this, arguments.Values
    {
      && Segments(tokens, os, arguments, Arity(arguments.Values))
      && !(addHelp && "-h" in arguments && Occurs(os, arguments, arguments["-h"]))
    }

    /** parse_args, after the registration of the help option. */
    method ParseRegistered(tokens: seq<string>) returns (ok: bool, ghost read: seq<Occurrence>)
      requires addHelp ==> "-h" in arguments && !arguments["-h"].isSet
      modifies arguments.Values
      ensures ok <==> exists os :: Acceptable(tokens, os)
      ensures var arity := Arity(arguments.Values);
              Segments(tokens, read, arguments, arity) || Stuck(tokens, read, arguments, arity)
      ensures forall os :: Segments(tokens, os, arguments, Arity(arguments.Values)) ==> os == read
      ensures forall a :: a in arguments.Values ==>
                && a.isSet == (old(a.isSet) || Occurs(read, arguments, a))
                && a.values == old(a.values) + ValuesOf(read, arguments, a)
                && a.nargs == old(a.nargs)
    {
      ghost var arity := Arity(arguments.Values);
      ghost var before := Settings(arguments.Values);
      ok, read := ParseTokens(tokens);
      SettingsMean(arguments.Values, before, arguments, read);
      assert Arity(arguments.Values) == arity;
      if !ok {
        StuckMeansNone(tokens, read, arguments, arity);
        return;
      }
      OnlySegmentation(tokens, read, arguments, arity);
      var help := IsSet("-h");
      if addHelp {
        assert help == Occurs(read, arguments, arguments["-h"]);
      }
      ok := !(help && addHelp);
      assert ok ==> Acceptable(tokens, read);
    }

    /**
     The arguments behind the program's name are accepted exactly if they can be segmented without a
     request for help.  There is then one way to segment them, and the options hold what it says.
     `read` is what was recognised, also when the result is false.
    */
    method ParseArgs(argv: seq<string>) returns (ok: bool, ghost read: seq<Occurrence>)
      modifies this`arguments, this`argList, arguments.Values
      ensures !addHelp ==> arguments == old(arguments)
      ensures addHelp ==>
                && "-h" in arguments && fresh(arguments["-h"])
                && arguments["-h"].isSet == Occurs(read, arguments, arguments["-h"])
                && (forall n :: n in arguments <==> n in old(arguments) || n == "-h" || n == "--help")
                && (forall n :: n in arguments ==>
                      arguments[n] == if n == "-h" || n == "--help" then arguments["-h"] else old(arguments)[n])
      ensures |argv| == 0 ==> ok && read == []
      ensures |argv| > 0 ==> (ok <==> exists os :: Acceptable(argv[1..], os))
      ensures |argv| > 0 ==>
                var arity := Arity(arguments.Values);
                Segments(argv[1..], read, arguments, arity) || Stuck(argv[1..], read, arguments, arity)
      ensures |argv| > 0 ==>
                forall os :: Segments(argv[1..], os, arguments, Arity(arguments.Values)) ==> os == read
      ensures forall a :: a in arguments.Values && a in old(arguments.Values) ==>
                && a.isSet == (old(a.isSet) || Occurs(read, arguments, a))
                && a.values == old(a.values) + ValuesOf(read, arguments, a)
                && a.nargs == old(a.nargs)
      ensures forall a :: a in old(arguments.Values) && a !in arguments.Values ==> unchanged(a)
    {
      if addHelp {
        var help := AddArgument(["-h", "--help"]);
        assert arguments["-h"] == help;
      }
      if argv == [] {
        ok, read := ParseRegistered([]);
        NothingToParse(read);
      } else {
        ok, read := ParseRegistered(argv[1..]);
      }
    }

    // No tokens are no occurrences, and help is not asked for.
    lemma NothingToParse(read: seq<Occurrence>)
      requires forall os :: Segments([], os, arguments, Arity(arguments.Values)) ==> os == read
      ensures read == [] && exists os :: Acceptable([], os)
    {
      assert Segments([], [], arguments, Arity(arguments.Values));
      assert Acceptable([], []);
    }
  }
}

/**
  The small fragment of Python's `re` syntax that the error-message tables use:
  literal characters, the `.` wildcard (any character except a newline), and the
  repetitions `\d+` and `\w+`. `\w` is approximated by ASCII letters, digits and
  the underscore.

  Matching is stated as existence of a match, which is what Python's
  backtracking engine decides for `re.match` (anchored at the start of the
  subject) and `re.search` (any start position).
*/
module RegexSubset {

  import opened Wrappers

  datatype CharClass = Digit | Word

  predicate IsDigit(c: char) { '0' <= c <= '9' }

  predicate IsWordChar(c: char) {
    IsDigit(c) || ('a' <= c <= 'z') || ('A' <= c <= 'Z') || c == '_'
  }

  predicate InClass(k: CharClass, c: char) {
    match k
    case Digit => IsDigit(c)
    case Word => IsWordChar(c)
  }

  /** A pattern is a sequence of atoms: a run of literal text, the `.` wildcard,
      or `\d+` / `\w+`. */
  datatype Atom = Text(t: string) | AnyChar | OneOrMore(k: CharClass)

  type Pattern = seq<Atom>

  /** Some prefix of `s` is matched by `p` (the anchored match of `re.match`). */
  predicate MatchesPrefix(p: Pattern, s: string)
    decreases |s|, |p|, 1
  {
    if p == [] then true
    else match p[0]
      case Text(t) => t <= s && MatchesPrefix(p[1..], s[|t|..])
      case AnyChar => |s| > 0 && s[0] != '\n' && MatchesPrefix(p[1..], s[1..])
      case OneOrMore(k) => MatchesRun(k, p[1..], s)
  }

  /** `k+` followed by `rest` matches some prefix of `s`. */
  predicate MatchesRun(k: CharClass, rest: Pattern, s: string)
    decreases |s|, |rest|, 0
  {
    |s| > 0 && InClass(k, s[0]) && (MatchesPrefix(rest, s[1..]) || MatchesRun(k, rest, s[1..]))
  }

  predicate AllInClass(k: CharClass, s: string) {
    forall i :: 0 <= i < |s| ==> InClass(k, s[i])
  }

  /** The unanchored search of `re.search`: `p` matches starting at some position of `s`. */
  function Search(p: Pattern, s: string): (r: bool)
    ensures r <==> exists i :: 0 <= i <= |s| && MatchesPrefix(p, s[i..])
    decreases |s|
  {
    if MatchesPrefix(p, s) then
      assert s[0..] == s;
      true
    else if s == [] then false
    else
      var r := Search(p, s[1..]);
      assert forall i :: 1 <= i <= |s| ==> s[i..] == s[1..][i - 1..];
      assert r ==> exists i :: 0 <= i <= |s| && MatchesPrefix(p, s[i..]) by {
        if r {
          var j :| 0 <= j <= |s[1..]| && MatchesPrefix(p, s[1..][j..]);
          assert s[1..][j..] == s[j + 1..];
        }
      }
      r
  }

  /** A repetition `k+` followed by `rest` matches exactly when a non-empty run of
      class characters is followed by a match of `rest`. */
  lemma {:induction false} RunCharacterization(k: CharClass, rest: Pattern, s: string)
    ensures MatchesRun(k, rest, s) <==>
            exists n :: 1 <= n <= |s| && AllInClass(k, s[..n]) && MatchesPrefix(rest, s[n..])
    decreases |s|
  {
    if |s| == 0 {
    } else if !InClass(k, s[0]) {
      forall n | 1 <= n <= |s| ensures !AllInClass(k, s[..n]) {
        assert s[..n][0] == s[0];
      }
    } else {
      RunCharacterization(k, rest, s[1..]);
      if MatchesRun(k, rest, s) {
        if MatchesPrefix(rest, s[1..]) {
          assert AllInClass(k, s[..1]);
        } else {
          var m :| 1 <= m <= |s[1..]| && AllInClass(k, s[1..][..m]) && MatchesPrefix(rest, s[1..][m..]);
          assert s[1..][m..] == s[m + 1..];
          assert s[..m + 1] == [s[0]] + s[1..][..m];
          assert AllInClass(k, s[..m + 1]);
        }
      } else {
        forall n | 1 <= n <= |s| && AllInClass(k, s[..n]) ensures !MatchesPrefix(rest, s[n..]) {
          if n > 1 {
            assert s[1..][..n - 1] == s[..n][1..];
            assert AllInClass(k, s[1..][..n - 1]);
            assert s[1..][n - 1..] == s[n..];
          }
        }
      }
    }
  }

  /** How a table consults its patterns: `re.search` or the anchored `re.match`. */
  datatype Mode = SearchAnywhere | MatchAtStart

  predicate Finds(mode: Mode, p: Pattern, s: string) {
    match mode
    case SearchAnywhere => Search(p, s)
    case MatchAtStart => MatchesPrefix(p, s)
  }

  /** One entry of an ordered pattern-to-error-class table. */
  datatype Rule<C> = Rule(pattern: Pattern, cls: C)

  /** The index of the first rule, in table order, whose pattern is found in `msg`. */
  function FirstMatch<C>(rules: seq<Rule<C>>, mode: Mode, msg: string): (r: Option<nat>)
    ensures r.Some? ==> r.value < |rules| && Finds(mode, rules[r.value].pattern, msg)
    ensures r.Some? ==> forall j :: 0 <= j < r.value ==> !Finds(mode, rules[j].pattern, msg)
    ensures r.None? <==> forall j :: 0 <= j < |rules| ==> !Finds(mode, rules[j].pattern, msg)
  {
    FirstMatchFrom(rules, mode, msg, 0)
  }

  function FirstMatchFrom<C>(rules: seq<Rule<C>>, mode: Mode, msg: string, from: nat): (r: Option<nat>)
    requires from <= |rules|
    ensures r.Some? ==> from <= r.value < |rules| && Finds(mode, rules[r.value].pattern, msg)
    ensures r.Some? ==> forall j :: from <= j < r.value ==> !Finds(mode, rules[j].pattern, msg)
    ensures r.None? <==> forall j :: from <= j < |rules| ==> !Finds(mode, rules[j].pattern, msg)
    decreases |rules| - from
  {
    if from == |rules| then None
    else if Finds(mode, rules[from].pattern, msg) then Some(from)
    else FirstMatchFrom(rules, mode, msg, from + 1)
  }

  /** The class an ordered table selects for `msg`: that of its first matching rule,
      or `otherwise` when no rule matches. */
  function ClassOf<C>(rules: seq<Rule<C>>, mode: Mode, msg: string, otherwise: C): (c: C)
    ensures (forall j :: 0 <= j < |rules| ==> !Finds(mode, rules[j].pattern, msg)) ==> c == otherwise
    ensures forall i :: 0 <= i < |rules| && Finds(mode, rules[i].pattern, msg) &&
                        (forall j :: 0 <= j < i ==> !Finds(mode, rules[j].pattern, msg))
                        ==> c == rules[i].cls
    ensures c == otherwise || exists i :: 0 <= i < |rules| && c == rules[i].cls
  {
    match FirstMatch(rules, mode, msg)
    case None => otherwise
    case Some(i) => rules[i].cls
  }

  /** The class of a given rule is selected once it matches and no earlier rule does. */
  lemma ClassOfIs<C>(rules: seq<Rule<C>>, mode: Mode, msg: string, otherwise: C, i: nat)
    requires i < |rules| && Finds(mode, rules[i].pattern, msg)
    requires forall j :: 0 <= j < i ==> !Finds(mode, rules[j].pattern, msg)
    ensures ClassOf(rules, mode, msg, otherwise) == rules[i].cls
  {
  }

  // ---------------------------------------------------------------------------
  // Building blocks for showing that a pattern matches a given text

  lemma TextThen(t: string, rest: Pattern, s: string)
    ensures MatchesPrefix([Text(t)] + rest, t + s) <==> MatchesPrefix(rest, s)
  {
    assert ([Text(t)] + rest)[1..] == rest;
    assert (t + s)[|t|..] == s;
  }

  lemma AnyThen(c: char, rest: Pattern, s: string)
    ensures MatchesPrefix([AnyChar] + rest, [c] + s) <==> c != '\n' && MatchesPrefix(rest, s)
  {
    assert ([AnyChar] + rest)[1..] == rest;
    assert ([c] + s)[1..] == s;
  }

  lemma RunThen(k: CharClass, run: string, rest: Pattern, s: string)
    requires |run| > 0 && AllInClass(k, run)
    requires MatchesPrefix(rest, s)
    ensures MatchesPrefix([OneOrMore(k)] + rest, run + s)
  {
    assert ([OneOrMore(k)] + rest)[1..] == rest;
    var u := run + s;
    assert u[..|run|] == run && u[|run|..] == s;
    RunCharacterization(k, rest, u);
  }

  /** A match of a prefix stays a match whatever follows it. */
  lemma {:induction false} MatchExtends(p: Pattern, s: string, more: string)
    requires MatchesPrefix(p, s)
    ensures MatchesPrefix(p, s + more)
    decreases |s|, |p|
  {
    if p != [] {
      match p[0]
      case Text(t) =>
        assert (s + more)[|t|..] == s[|t|..] + more;
        MatchExtends(p[1..], s[|t|..], more);
      case AnyChar =>
        assert (s + more)[1..] == s[1..] + more;
        MatchExtends(p[1..], s[1..], more);
      case OneOrMore(k) =>
        RunExtends(k, p[1..], s, more);
    }
  }

  lemma {:induction false} RunExtends(k: CharClass, rest: Pattern, s: string, more: string)
    requires MatchesRun(k, rest, s)
    ensures MatchesRun(k, rest, s + more)
    decreases |s|, |rest|
  {
    assert (s + more)[1..] == s[1..] + more;
    if MatchesPrefix(rest, s[1..]) {
      MatchExtends(rest, s[1..], more);
    } else {
      RunExtends(k, rest, s[1..], more);
    }
  }

  lemma Assoc<T>(x: seq<T>, y: seq<T>, z: seq<T>)
    ensures x + y + z == x + (y + z)
  {
  }

  /** A left-nested concatenation of six pieces, regrouped to the right. */
  lemma Regroup6<T>(x1: seq<T>, x2: seq<T>, x3: seq<T>, x4: seq<T>, x5: seq<T>, x6: seq<T>)
    ensures x1 + x2 + x3 + x4 + x5 + x6 == x1 + (x2 + (x3 + (x4 + (x5 + x6))))
  {
    Assoc(x1 + x2 + x3 + x4, x5, x6);
    Assoc(x1 + x2 + x3, x4, x5 + x6);
    Assoc(x1 + x2, x3, x4 + (x5 + x6));
    Assoc(x1, x2, x3 + (x4 + (x5 + x6)));
  }

  /** A left-nested concatenation of five pieces, regrouped to the right. */
  lemma Regroup5<T>(x1: seq<T>, x2: seq<T>, x3: seq<T>, x4: seq<T>, x5: seq<T>)
    ensures x1 + x2 + x3 + x4 + x5 == x1 + (x2 + (x3 + (x4 + x5)))
  {
    Assoc(x1 + x2 + x3, x4, x5);
    Assoc(x1 + x2, x3, x4 + x5);
    Assoc(x1, x2, x3 + (x4 + x5));
  }

  lemma FoundAfter(p: Pattern, before: string, s: string)
    requires MatchesPrefix(p, s)
    ensures Search(p, before + s)
  {
    assert (before + s)[|before|..] == s;
  }
}

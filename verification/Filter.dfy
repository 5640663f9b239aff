// The message filter of the sanitization service: the whole message is matched
// against the ECMAScript expression  ^.*[\/*$^].*$  with regex_match.
module Filter {

  /** The constructs the expression is built from. */
  datatype Atom = LineStart | LineEnd | AnyStar | OneOf(chars: set<char>)

  const FORBIDDEN: set<char> := {'/', '*', '$', '^'}

  /** The expression, atom by atom. Inside the class "\/" is an escaped slash,
      so the backslash itself is not a member. */
  const EXPRESSION: seq<Atom> := [LineStart, AnyStar, OneOf(FORBIDDEN), AnyStar, LineEnd]

  predicate LineTerminator(c: char) {
    c == '\n' || c == '\r'
  }

  /** Some way of consuming s[i..] entirely with the atoms, as a backtracking matcher explores it. */
  predicate MatchesFrom(atoms: seq<Atom>, s: string, i: nat)
    requires i <= |s|
    decreases |atoms|
  {
    if atoms == [] then i == |s|
    else match atoms[0]
      case LineStart => (i == 0 || LineTerminator(s[i - 1])) && MatchesFrom(atoms[1..], s, i)
      case LineEnd => (i == |s| || LineTerminator(s[i])) && MatchesFrom(atoms[1..], s, i)
      case OneOf(chars) => i < |s| && s[i] in chars && MatchesFrom(atoms[1..], s, i + 1)
      case AnyStar =>
        exists j | i <= j <= |s| ::
          (forall k | i <= k < j :: !LineTerminator(s[k])) && MatchesFrom(atoms[1..], s, j)
  }

  /** regex_match: the whole message has to be consumed. */
  predicate RegexMatch(s: string) {
    MatchesFrom(EXPRESSION, s, 0)
  }

  /** The same decision without a regular expression. */
  predicate Rejected(s: string) {
    && (forall k | 0 <= k < |s| :: s[k] != '\n' && s[k] != '\r')
    && (exists k | 0 <= k < |s| :: s[k] == '/' || s[k] == '*' || s[k] == '$' || s[k] == '^')
  }

  lemma TailAtoms()
    ensures EXPRESSION[1..] == [AnyStar, OneOf(FORBIDDEN), AnyStar, LineEnd]
    ensures EXPRESSION[1..][1..] == [OneOf(FORBIDDEN), AnyStar, LineEnd]
    ensures EXPRESSION[1..][1..][1..] == [AnyStar, LineEnd]
    ensures EXPRESSION[1..][1..][1..][1..] == [LineEnd]
    ensures EXPRESSION[1..][1..][1..][1..][1..] == []
  {
  }

  /** The tail ".*$" consumes exactly the suffixes without a line terminator. */
  lemma MatchesRest(s: string, i: nat)
    requires i <= |s|
    ensures MatchesFrom([AnyStar, LineEnd], s, i) <==> forall k | i <= k < |s| :: !LineTerminator(s[k])
  {
    var tail: seq<Atom> := [AnyStar, LineEnd];
    assert tail[1..] == [LineEnd] && tail[1..][1..] == [];
    assert MatchesFrom([LineEnd], s, |s|) by { assert [LineEnd][1..] == []; }
    if MatchesFrom(tail, s, i) {
      var j :| i <= j <= |s| && (forall k | i <= k < j :: !LineTerminator(s[k])) && MatchesFrom(tail[1..], s, j);
      assert MatchesFrom([LineEnd][1..], s, j);
      assert j == |s|;
    }
  }

  /** The filter rejects a message exactly when it is a single line that contains
      a slash, star, dollar or caret. A line terminator anywhere lets it through. */
  lemma RegexMatchMeaning(s: string)
    ensures RegexMatch(s) <==> Rejected(s)
  {
    TailAtoms();
    var atoms := EXPRESSION[1..];
    if RegexMatch(s) {
      assert MatchesFrom(atoms, s, 0);
      var j :| 0 <= j <= |s| && (forall k | 0 <= k < j :: !LineTerminator(s[k])) && MatchesFrom(atoms[1..], s, j);
      assert j < |s| && s[j] in FORBIDDEN && MatchesFrom(atoms[1..][1..], s, j + 1);
      MatchesRest(s, j + 1);
    }
    if Rejected(s) {
      var k :| 0 <= k < |s| && (s[k] == '/' || s[k] == '*' || s[k] == '$' || s[k] == '^');
      MatchesRest(s, k + 1);
      assert MatchesFrom(atoms[1..], s, k);
      assert MatchesFrom(atoms, s, 0);
    }
  }
}

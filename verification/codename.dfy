/**
 * Codename generation for gadgets: one of four prefixes, a space, and one of
 * twenty nouns, each picked at random. The random picks are parameters here.
 */
module Codename {
  import opened Wrappers

  const Adjectives: seq<string> := ["The", "Agent", "Project", "Operation"]

  const Nouns: seq<string> := [
    "Nightingale", "Kraken", "Phoenix", "Viper", "Falcon",
    "Raven", "Cobra", "Wolf", "Tiger", "Dragon",
    "Shadow", "Thunder", "Lightning", "Storm", "Blaze",
    "Frost", "Steel", "Diamond", "Phantom", "Ghost"
  ]

  /** `Math.floor(Math.random() * adjectives.length)` */
  type AdjectiveIndex = i: int | 0 <= i < 4

  /** `Math.floor(Math.random() * nouns.length)` */
  type NounIndex = i: int | 0 <= i < 20

  /** The two random draws one call of the generator makes. */
  datatype Pick = Pick(adjective: AdjectiveIndex, noun: NounIndex)

  /** The codename grammar: a prefix, one space, a noun. */
  ghost predicate IsCodename(s: string) {
    exists i, j | 0 <= i < |Adjectives| && 0 <= j < |Nouns| :: s == Adjectives[i] + " " + Nouns[j]
  }

  /** The generator, with its two random draws made explicit. */
  function Generate(p: Pick): (r: string)
    ensures IsCodename(r)
  {
    Adjectives[p.adjective] + " " + Nouns[p.noun]
  }

  /** The bound on regenerations in the uniqueness loop of gadget creation. */
  const MaxAttempts := 10

  /** The codename the loop settles on, and how many times it regenerated. */
  datatype Choice = Choice(codename: string, attempts: nat)

  /** The k-th candidate codename is already in use. */
  predicate Collides(taken: set<string>, candidates: nat -> string, k: nat) {
    candidates(k) in taken
  }

  /**
   * The uniqueness loop, entered with `attempts` regenerations done and the
   * codename `candidates(attempts)` in hand, where `candidates(k)` is what the
   * k-th call of the generator returns. Stops at a free codename, or after
   * `MaxAttempts` regenerations with whatever codename it holds, taken or not.
   */
  function Choose(taken: set<string>, candidates: nat -> string, attempts: nat): (r: Choice)
    requires attempts <= MaxAttempts
    ensures attempts <= r.attempts <= MaxAttempts
    ensures r.codename == candidates(r.attempts)
    ensures forall k :: attempts <= k < r.attempts ==> Collides(taken, candidates, k)
    ensures r.codename in taken ==> r.attempts == MaxAttempts
    decreases MaxAttempts - attempts
  {
    if attempts < MaxAttempts && Collides(taken, candidates, attempts) then Choose(taken, candidates, attempts + 1)
    else Choice(candidates(attempts), attempts)
  }

  /** With all ten checked codenames taken, the loop keeps the eleventh unchecked. */
  lemma {:induction false} ChooseGivesUp(taken: set<string>, candidates: nat -> string, attempts: nat)
    requires attempts <= MaxAttempts
    requires forall k :: attempts <= k < MaxAttempts ==> Collides(taken, candidates, k)
    ensures Choose(taken, candidates, attempts) == Choice(candidates(MaxAttempts), MaxAttempts)
    decreases MaxAttempts - attempts
  {
    if attempts < MaxAttempts {
      ChooseGivesUp(taken, candidates, attempts + 1);
    }
  }

  /** The codenames the generator yields for a sequence of random draws. */
  function Candidates(picks: nat -> Pick): (c: nat -> string)
    ensures forall k: nat :: IsCodename(c(k))
  {
    var c := (k: nat) => Generate(picks(k));
    assert forall k: nat :: c(k) == Generate(picks(k));
    c
  }

  /**
   * What creation promises of its codename: it follows the grammar, and it
   * is an already taken one only when the first ten generations all were.
   */
  ghost predicate Settled(taken: set<string>, picks: nat -> Pick, codename: string) {
    && IsCodename(codename)
    && (codename in taken ==> forall k :: 0 <= k < MaxAttempts ==> Generate(picks(k)) in taken)
  }

  /**
   * The codename gadget creation settles on follows the grammar, and it is a
   * taken one only when the ten checked generations all collided.
   */
  lemma ChooseFromPicks(taken: set<string>, picks: nat -> Pick)
    ensures Settled(taken, picks, Choose(taken, Candidates(picks), 0).codename)
  {
    var c := Candidates(picks);
    var r := Choose(taken, c, 0);
    if r.codename in taken {
      forall k | 0 <= k < MaxAttempts
        ensures Generate(picks(k)) in taken
      {
        assert Collides(taken, c, k);
      }
    }
  }

  /** Position of the first space in `s`, or `|s|` when there is none. */
  function FirstSpace(s: string): (k: nat)
    ensures k <= |s|
    ensures k < |s| ==> s[k] == ' '
    ensures forall i :: 0 <= i < k ==> s[i] != ' '
  {
    if s == [] then 0
    else if s[0] == ' ' then 0
    else 1 + FirstSpace(s[1..])
  }

  /** Index of the first occurrence of `x` in `xs`. */
  function IndexOf(xs: seq<string>, x: string): (r: Option<nat>)
    ensures r.Some? ==> r.value < |xs| && xs[r.value] == x
    ensures r.Some? ==> forall j :: 0 <= j < r.value ==> xs[j] != x
    ensures r.None? ==> x !in xs
  {
    if xs == [] then None
    else if xs[0] == x then Some(0)
    else match IndexOf(xs[1..], x)
      case None => None
      case Some(i) => Some(i + 1)
  }

  /** Reads a codename back into the picks that produced it. */
  function Parse(s: string): (r: Option<Pick>)
    ensures r.Some? ==> s == Adjectives[r.value.adjective] + " " + Nouns[r.value.noun]
  {
    var k := FirstSpace(s);
    if k == |s| then None
    else
      var adjective, noun := IndexOf(Adjectives, s[..k]), IndexOf(Nouns, s[k + 1..]);
      if adjective.None? || noun.None? then None
      else
        SplitAt(s, k);
        Some(Pick(adjective.value, noun.value))
  }

  lemma SplitAt(s: string, k: nat)
    requires k < |s| && s[k] == ' '
    ensures s == s[..k] + " " + s[k + 1..]
  {
  }

  lemma AdjectivesHaveNoSpace()
    ensures forall i, c :: 0 <= i < |Adjectives| && c in Adjectives[i] ==> c != ' '
  {
    assert Adjectives[0] == "The";
    assert Adjectives[1] == "Agent";
    assert Adjectives[2] == "Project";
    assert Adjectives[3] == "Operation";
  }

  lemma AdjectivesDistinct()
    ensures forall i, j :: 0 <= i < j < |Adjectives| ==> Adjectives[i] != Adjectives[j]
  {
  }

  lemma NounsDistinct()
    ensures forall i, j :: 0 <= i < j < |Nouns| ==> Nouns[i] != Nouns[j]
  {
  }

  /** In a list without repetitions, the first occurrence of `xs[i]` is `i`. */
  lemma IndexOfDistinct(xs: seq<string>, i: nat)
    requires i < |xs|
    requires forall a, b :: 0 <= a < b < |xs| ==> xs[a] != xs[b]
    ensures IndexOf(xs, xs[i]) == Some(i)
  {
  }

  /** The first space of `a + " " + b` is the one the generator inserted. */
  lemma {:induction false} FirstSpaceAfterWord(a: string, b: string)
    requires forall c :: c in a ==> c != ' '
    ensures FirstSpace(a + " " + b) == |a|
  {
    var s := a + " " + b;
    assert s[|a|] == ' ';
    assert forall i :: 0 <= i < |a| ==> s[i] == a[i] && a[i] in a;
  }

  lemma ParseGenerated(i: AdjectiveIndex, j: NounIndex)
    ensures Parse(Adjectives[i] + " " + Nouns[j]) == Some(Pick(i, j))
  {
    var a, n := Adjectives[i], Nouns[j];
    var s := a + " " + n;
    AdjectivesHaveNoSpace();
    FirstSpaceAfterWord(a, n);
    assert s[..|a|] == a;
    assert s[|a| + 1..] == n;
    AdjectivesDistinct();
    NounsDistinct();
    IndexOfDistinct(Adjectives, i);
    IndexOfDistinct(Nouns, j);
  }

  /** A string is a codename exactly when it parses, so `Parse` decides the grammar. */
  lemma ParseDecidesGrammar(s: string)
    ensures IsCodename(s) <==> Parse(s).Some?
  {
    if IsCodename(s) {
      var i, j :| 0 <= i < |Adjectives| && 0 <= j < |Nouns| && s == Adjectives[i] + " " + Nouns[j];
      ParseGenerated(i, j);
    }
  }

  /** Distinct picks give distinct codenames: there are exactly 80 codenames. */
  lemma GenerateInjective(p: Pick, q: Pick)
    ensures Generate(p) == Generate(q) <==> p == q
  {
    ParseGenerated(p.adjective, p.noun);
    ParseGenerated(q.adjective, q.noun);
  }

  /** A generated codename reads back as the picks that produced it. */
  lemma ParseGenerate(p: Pick)
    ensures Parse(Generate(p)) == Some(p)
  {
    ParseGenerated(p.adjective, p.noun);
  }
}

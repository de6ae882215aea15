/**
  The candidate generator: a seed (the common prefix) and a word list become
  the ordered, de-duplicated list of bucket names that the scanner probes.
  `Generate` runs the three permutation strategies in order (raw, environment,
  host), concatenates what they produce and removes repeated names, keeping
  the first occurrence of each.
 */
module Wordlist {

  /** The environment tags every word is combined with. */
  const Environments: seq<string> :=
    ["dev", "development", "stage", "s3", "staging", "prod", "production", "test"]

  /** A bucket format `%s<first>%s<second>%s`, given by its two separators. */
  datatype EnvFormat = EnvFormat(first: string, second: string)

  /** The five formats of the environment strategy, in the order they are tried. */
  const EnvFormats: seq<EnvFormat> :=
    [EnvFormat("-", "-"), EnvFormat("-", "."), EnvFormat("-", ""), EnvFormat(".", "-"), EnvFormat(".", ".")]

  /** The three formats `%s<sep>%s` of the host strategy. */
  const HostFormats: seq<string> := [".", "-", ""]

  /** `format('%s<first>%s<second>%s', a, b, c)`. */
  function Format3(f: EnvFormat, a: string, b: string, c: string): (r: string)
    ensures |r| == |a| + |f.first| + |b| + |f.second| + |c|
    ensures r[..|a|] == a && r[|r| - |c|..] == c
    ensures f.first == f.second == "" ==> r == a + b + c
  {
    a + f.first + b + f.second + c
  }

  /** `format('%s<sep>%s', a, b)`. */
  function Format2(sep: string, a: string, b: string): (r: string)
    ensures |r| == |a| + |sep| + |b|
    ensures r[..|a|] == a && r[|r| - |b|..] == b
    ensures sep == "" ==> r == a + b
  {
    a + sep + b
  }

  // ---------------------------------------------------------------------------
  // Reference definitions: the names each strategy is meant to produce, written
  // out literally rather than through the format tables.
  // ---------------------------------------------------------------------------

  /** The five environment names for one word and one environment, in order. */
  function EnvJoins(seed: string, w: string, e: string): seq<string> {
    [seed + "-" + w + "-" + e, seed + "-" + w + "." + e, seed + "-" + w + e,
     seed + "." + w + "-" + e, seed + "." + w + "." + e]
  }

  /** The six host names for one word, in order. */
  function HostJoins(seed: string, w: string): seq<string> {
    [seed + "." + w, w + "." + seed, seed + "-" + w, w + "-" + seed, seed + w, w + seed]
  }

  /** What the environment strategy yields for one word: all environments in order. */
  function EnvRows(seed: string, w: string, envs: seq<string>): seq<string>
    decreases |envs|
  {
    if envs == [] then [] else EnvRows(seed, w, envs[..|envs| - 1]) + EnvJoins(seed, w, envs[|envs| - 1])
  }

  /** What the environment strategy yields for a word list. */
  function EnvPermutations(seed: string, words: seq<string>): seq<string>
    decreases |words|
  {
    if words == [] then []
    else EnvPermutations(seed, words[..|words| - 1]) + EnvRows(seed, words[|words| - 1], Environments)
  }

  /** What the host strategy yields for a word list. */
  function HostPermutations(seed: string, words: seq<string>): seq<string>
    decreases |words|
  {
    if words == [] then []
    else HostPermutations(seed, words[..|words| - 1]) + HostJoins(seed, words[|words| - 1])
  }

  // ---------------------------------------------------------------------------
  // De-duplication
  // ---------------------------------------------------------------------------

  ghost predicate Distinct<T>(s: seq<T>) {
    forall i, j :: 0 <= i < j < |s| ==> s[i] != s[j]
  }

  /**
    Array#uniq: the elements of `s` with every repetition after the first
    occurrence dropped, order otherwise kept.
   */
  function Uniq(s: seq<string>): (r: seq<string>)
    ensures Distinct(r)
    ensures forall x :: x in r <==> x in s
    ensures |r| <= |s|
    ensures |s| > 0 ==> |r| > 0 && r[0] == s[0]
    decreases |s|
  {
    if s == [] then []
    else
      var r := Uniq(s[..|s| - 1]);
      if s[|s| - 1] in r then r else r + [s[|s| - 1]]
  }

  /** A list that has no repetition is left as it is. */
  lemma {:induction false} UniqOfDistinct(s: seq<string>)
    requires Distinct(s)
    ensures Uniq(s) == s
    decreases |s|
  {
    if s != [] {
      var p := s[..|s| - 1];
      assert Distinct(p);
      UniqOfDistinct(p);
      assert s[|s| - 1] !in p;
      assert p + [s[|s| - 1]] == s;
    }
  }

  /** Appending more elements never reorders or removes what is already kept. */
  lemma {:induction false} UniqPrefix(s: seq<string>, t: seq<string>)
    ensures Uniq(s) <= Uniq(s + t)
    decreases |t|
  {
    if t == [] {
      assert s + t == s;
    } else {
      var t' := t[..|t| - 1];
      UniqPrefix(s, t');
      assert (s + t)[..|s + t| - 1] == s + t';
    }
  }

  // ---------------------------------------------------------------------------
  // The three strategies, as the loops that build them
  // ---------------------------------------------------------------------------

  /** Each entry of the format table gives the matching literal environment name. */
  lemma EnvFormatAgrees(seed: string, w: string, e: string, k: nat)
    requires k < |EnvFormats|
    ensures Format3(EnvFormats[k], seed, w, e) == EnvJoins(seed, w, e)[k]
  {
  }

  /** Each entry of the format table gives the matching pair of literal host names. */
  lemma HostFormatAgrees(seed: string, w: string, k: nat)
    requires k < |HostFormats|
    ensures Format2(HostFormats[k], seed, w) == HostJoins(seed, w)[2 * k]
    ensures Format2(HostFormats[k], w, seed) == HostJoins(seed, w)[2 * k + 1]
  {
  }

  /** One more environment extends a word's rows by that environment's joins. */
  lemma EnvRowsStep(seed: string, w: string, envs: seq<string>, j: nat)
    requires j < |envs|
    ensures EnvRows(seed, w, envs[..j + 1]) == EnvRows(seed, w, envs[..j]) + EnvJoins(seed, w, envs[j])
  {
    assert envs[..j + 1][..j] == envs[..j];
  }

  /** One more word extends the environment names by that word's rows. */
  lemma EnvPermutationsStep(seed: string, words: seq<string>, i: nat)
    requires i < |words|
    ensures EnvPermutations(seed, words[..i + 1])
         == EnvPermutations(seed, words[..i]) + EnvRows(seed, words[i], Environments)
  {
    assert words[..i + 1][..i] == words[..i];
  }

  /** The body of the environment strategy's outer loop: one word, every environment, every format. */
  method AppendEnvRows(perms: seq<string>, seed: string, word: string) returns (extended: seq<string>)
    ensures extended == perms + EnvRows(seed, word, Environments)
  {
    extended := perms;
    for j := 0 to |Environments|
      invariant extended == perms + EnvRows(seed, word, Environments[..j])
    {
      var environment := Environments[j];
      ghost var row, joins := extended, EnvJoins(seed, word, environment);
      for k := 0 to |EnvFormats|
        invariant extended == row + joins[..k]
      {
        EnvFormatAgrees(seed, word, environment, k);
        assert joins[..k + 1] == joins[..k] + [joins[k]];
        extended := extended + [Format3(EnvFormats[k], seed, word, environment)];
      }
      assert joins[..|EnvFormats|] == joins;
      EnvRowsStep(seed, word, Environments, j);
    }
    assert Environments[..|Environments|] == Environments;
  }

  /** The environment strategy: every word, every environment, every format. */
  method PermutationEnvs(seed: string, words: seq<string>) returns (perms: seq<string>)
    ensures perms == EnvPermutations(seed, words)
    ensures |perms| == |EnvFormats| * |Environments| * |words|
  {
    perms := [];
    for i := 0 to |words|
      invariant perms == EnvPermutations(seed, words[..i])
    {
      perms := AppendEnvRows(perms, seed, words[i]);
      EnvPermutationsStep(seed, words, i);
    }
    assert words[..|words|] == words;
    EnvPermutationsLength(seed, words);
  }

  /** The host strategy: every word, every join style, seed first and then word first. */
  method PermutationHost(seed: string, words: seq<string>) returns (perms: seq<string>)
    ensures perms == HostPermutations(seed, words)
    ensures |perms| == 2 * |HostFormats| * |words|
  {
    perms := [];
    for i := 0 to |words|
      invariant perms == HostPermutations(seed, words[..i])
    {
      var word := words[i];
      ghost var before := perms;
      for k := 0 to |HostFormats|
        invariant perms == before + HostJoins(seed, word)[..2 * k]
      {
        HostFormatAgrees(seed, word, k);
        perms := perms + [Format2(HostFormats[k], seed, word)];
        perms := perms + [Format2(HostFormats[k], word, seed)];
        assert HostJoins(seed, word)[..2 * k + 2]
            == HostJoins(seed, word)[..2 * k] + [HostJoins(seed, word)[2 * k], HostJoins(seed, word)[2 * k + 1]];
      }
      assert words[..i + 1][..i] == words[..i];
      assert HostJoins(seed, word)[..2 * |HostFormats|] == HostJoins(seed, word);
    }
    assert words[..|words|] == words;
    HostPermutationsLength(seed, words);
  }

  // ---------------------------------------------------------------------------
  // Counts before de-duplication
  // ---------------------------------------------------------------------------

  lemma {:induction false} EnvRowsLength(seed: string, w: string, envs: seq<string>)
    ensures |EnvRows(seed, w, envs)| == 5 * |envs|
    decreases |envs|
  {
    if envs != [] {
      EnvRowsLength(seed, w, envs[..|envs| - 1]);
    }
  }

  /** Five formats times eight environments: exactly 40 names per word. */
  lemma {:induction false} EnvPermutationsLength(seed: string, words: seq<string>)
    ensures |EnvPermutations(seed, words)| == 40 * |words|
    decreases |words|
  {
    if words != [] {
      EnvPermutationsLength(seed, words[..|words| - 1]);
      EnvRowsLength(seed, words[|words| - 1], Environments);
    }
  }

  /** Three join styles times two orders: exactly 6 names per word. */
  lemma {:induction false} HostPermutationsLength(seed: string, words: seq<string>)
    ensures |HostPermutations(seed, words)| == 6 * |words|
    decreases |words|
  {
    if words != [] {
      HostPermutationsLength(seed, words[..|words| - 1]);
    }
  }

  // ---------------------------------------------------------------------------
  // Membership
  // ---------------------------------------------------------------------------

  lemma {:induction false} EnvRowsMembers(seed: string, w: string, envs: seq<string>, x: string)
    ensures x in EnvRows(seed, w, envs) <==> exists e :: e in envs && x in EnvJoins(seed, w, e)
    decreases |envs|
  {
    if envs != [] {
      var p := envs[..|envs| - 1];
      EnvRowsMembers(seed, w, p, x);
      assert envs == p + [envs[|envs| - 1]];
    }
  }

  /** A name is an environment permutation iff it joins the seed, some word and some environment. */
  lemma {:induction false} EnvPermutationsMembers(seed: string, words: seq<string>, x: string)
    ensures x in EnvPermutations(seed, words)
        <==> exists w, e :: w in words && e in Environments && x in EnvJoins(seed, w, e)
    decreases |words|
  {
    if words != [] {
      var p := words[..|words| - 1];
      var last := words[|words| - 1];
      EnvPermutationsMembers(seed, p, x);
      EnvRowsMembers(seed, last, Environments, x);
      assert words == p + [last];
      if x in EnvRows(seed, last, Environments) {
        var e :| e in Environments && x in EnvJoins(seed, last, e);
        assert last in words;
      }
      if exists w, e :: w in words && e in Environments && x in EnvJoins(seed, w, e) {
        var w, e :| w in words && e in Environments && x in EnvJoins(seed, w, e);
        if w != last {
          assert w in p;
        }
      }
    }
  }

  /** A name is a host permutation iff it joins the seed and some word in one of the six ways. */
  lemma {:induction false} HostPermutationsMembers(seed: string, words: seq<string>, x: string)
    ensures x in HostPermutations(seed, words) <==> exists w :: w in words && x in HostJoins(seed, w)
    decreases |words|
  {
    if words != [] {
      var p := words[..|words| - 1];
      var last := words[|words| - 1];
      HostPermutationsMembers(seed, p, x);
      assert words == p + [last];
      if exists w :: w in words && x in HostJoins(seed, w) {
        var w :| w in words && x in HostJoins(seed, w);
        if w != last {
          assert w in p;
        }
      }
    }
  }

  // ---------------------------------------------------------------------------
  // The generator
  // ---------------------------------------------------------------------------

  /**
    The strategies' output, concatenated in the order raw, environment, host.
    The raw strategy contributes the seed on its own.
   */
  function AllPermutations(seed: string, words: seq<string>): seq<string> {
    [seed] + EnvPermutations(seed, words) + HostPermutations(seed, words)
  }

  /** The generator's result: the concatenated strategies, de-duplicated. */
  function Candidates(seed: string, words: seq<string>): (r: seq<string>)
    ensures |r| > 0 && r[0] == seed
    ensures forall i :: 0 < i < |r| ==> r[i] != seed
    ensures Distinct(r)
    ensures |r| <= 1 + 46 * |words|
  {
    AllPermutationsLength(seed, words);
    Uniq(AllPermutations(seed, words))
  }

  /** Before de-duplication there are exactly 1 + 46 names per word. */
  lemma AllPermutationsLength(seed: string, words: seq<string>)
    ensures |AllPermutations(seed, words)| == 1 + 46 * |words|
  {
    EnvPermutationsLength(seed, words);
    HostPermutationsLength(seed, words);
  }

  /**
    The generator. Runs the strategies in order, collects what they yield,
    flattens and de-duplicates.
   */
  method Generate(seed: string, words: seq<string>) returns (list: seq<string>)
    ensures list == Candidates(seed, words)
    ensures |list| > 0 && list[0] == seed
    ensures forall i :: 0 < i < |list| ==> list[i] != seed
    ensures Distinct(list)
    ensures |list| <= 1 + 46 * |words|
  {
    var raw := [seed];
    var envs := PermutationEnvs(seed, words);
    var hosts := PermutationHost(seed, words);
    list := Uniq(raw + envs + hosts);
    AllPermutationsLength(seed, words);
  }

  /**
    The exact contents of the generator's result: the seed, the five
    environment joins of every word and environment, and the six host joins of
    every word, and nothing else.
   */
  lemma CandidatesMembers(seed: string, words: seq<string>, x: string)
    ensures x in Candidates(seed, words) <==>
      || x == seed
      || (exists w, e :: w in words && e in Environments && x in EnvJoins(seed, w, e))
      || (exists w :: w in words && x in HostJoins(seed, w))
  {
    EnvPermutationsMembers(seed, words, x);
    HostPermutationsMembers(seed, words, x);
  }

  /** The raw names always come first, then the environment names, in strategy order. */
  lemma CandidatesStartWithSeedAndEnvs(seed: string, words: seq<string>)
    ensures Uniq([seed] + EnvPermutations(seed, words)) <= Candidates(seed, words)
    ensures Candidates(seed, words)[0] == seed
  {
    UniqPrefix([seed] + EnvPermutations(seed, words), HostPermutations(seed, words));
  }

  /** Every environment join of a listed word and a listed environment is generated. */
  lemma EnvJoinGenerated(seed: string, words: seq<string>, w: string, e: string, k: nat)
    requires w in words && e in Environments && k < 5
    ensures EnvJoins(seed, w, e)[k] in Candidates(seed, words)
  {
    CandidatesMembers(seed, words, EnvJoins(seed, w, e)[k]);
  }

  /** Every host join of a listed word is generated. */
  lemma HostJoinGenerated(seed: string, words: seq<string>, w: string, k: nat)
    requires w in words && k < 6
    ensures HostJoins(seed, w)[k] in Candidates(seed, words)
  {
    CandidatesMembers(seed, words, HostJoins(seed, w)[k]);
  }

  /** For seed "example" and the single word "test", the all-dashes name for `dev` is generated. */
  lemma ExampleDashedEnvCandidate(words: seq<string>)
    requires words == ["test"]
    ensures "example-test-dev" in Candidates("example", words)
  {
    var seed := "example";
    assert "test" in words && "dev" in Environments;
    assert EnvJoins(seed, "test", "dev")[0] == "example-test-dev";
    EnvJoinGenerated(seed, words, "test", "dev", 0);
  }

  /** For seed "example" and the single word "test", the all-dots name for `production` is generated. */
  lemma ExampleDottedEnvCandidate(words: seq<string>)
    requires words == ["test"]
    ensures "example.test.production" in Candidates("example", words)
  {
    var seed := "example";
    assert "test" in words && "production" in Environments;
    assert EnvJoins(seed, "test", "production")[4] == "example.test.production";
    EnvJoinGenerated(seed, words, "test", "production", 4);
  }

  /** For seed "example" and the single word "test", two of the expected host names. */
  lemma ExampleHostCandidates(words: seq<string>)
    requires words == ["test"]
    ensures "test.example" in Candidates("example", words)
    ensures "exampletest" in Candidates("example", words)
  {
    var seed := "example";
    assert "test" in words;
    assert HostJoins(seed, "test")[1] == "test.example";
    HostJoinGenerated(seed, words, "test", 1);
    assert HostJoins(seed, "test")[4] == "exampletest";
    HostJoinGenerated(seed, words, "test", 4);
  }
}

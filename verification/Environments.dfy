/**
 Environment names. A filter entry names one environment, and also, when it has
 no slash, every environment below it: `review` covers `review/pr-1`.
 */
module Environments {
  import opened Wrappers
  import opened Names

  /** The text before the first slash; all of it when there is none. */
  function BeforeSlash(name: string): (prefix: string)
    ensures prefix <= name && '/' !in prefix
    ensures '/' in name <==> prefix < name
    ensures prefix < name ==> prefix + "/" <= name
  {
    if name == "" || name[0] == '/' then ""
    else [name[0]] + BeforeSlash(name[1..])
  }

  /** `matchEnvKey`: the name itself, else its prefix before the first slash. */
  function MatchEnvKey(candidate: string, keys: seq<string>): Option<string> {
    if candidate in keys then Some(candidate)
    else if '/' in candidate && BeforeSlash(candidate) in keys then Some(BeforeSlash(candidate))
    else None
  }

  /** What an entry means: this very environment or, for an entry without a slash, any environment below it. */
  ghost predicate Covers(entry: string, env: string) {
    env == entry || ('/' !in entry && entry + "/" <= env)
  }

  lemma {:induction false} CoversBySlash(entry: string, env: string)
    requires '/' !in entry && entry + "/" <= env
    ensures BeforeSlash(env) == entry && '/' in env
  {
    assert env[|entry|] == (entry + "/")[|entry|] == '/';
    if entry != "" {
      assert env[0] == (entry + "/")[0] == entry[0];
      assert entry == [entry[0]] + entry[1..];
      assert (entry + "/")[1..] == entry[1..] + "/";
      assert env[1..][..|entry|] == env[..|entry| + 1][1..];
      CoversBySlash(entry[1..], env[1..]);
    }
  }

  /** The matcher finds a key exactly when one covers the candidate, and returns one that does, by name if possible. */
  lemma MatchEnvKeyMeaning(candidate: string, keys: seq<string>)
    ensures MatchEnvKey(candidate, keys).Some? <==> exists k :: k in keys && Covers(k, candidate)
    ensures forall k :: MatchEnvKey(candidate, keys) == Some(k) ==> k in keys && Covers(k, candidate)
    ensures candidate in keys ==> MatchEnvKey(candidate, keys) == Some(candidate)
  {
    forall k | k in keys && Covers(k, candidate) ensures MatchEnvKey(candidate, keys).Some? {
      if k != candidate {
        CoversBySlash(k, candidate);
      }
    }
  }

  /** The same choice from a set of keys: the order of the list it is made from does not matter. */
  function MatchIn(candidate: string, keys: set<string>): Option<string> {
    if candidate in keys then Some(candidate)
    else if '/' in candidate && BeforeSlash(candidate) in keys then Some(BeforeSlash(candidate))
    else None
  }

  lemma MatchIgnoresOrder(candidate: string, keys: seq<string>)
    ensures MatchEnvKey(candidate, keys) == MatchIn(candidate, Members(keys))
  {
  }

  /** `activeInEnvironment`: an empty filter means every environment. */
  predicate ActiveIn(environments: seq<string>, env: string) {
    |environments| == 0 || MatchEnvKey(env, environments).Some?
  }

  /** A filter means every environment when it is empty, else those one of its entries names or is the parent of. */
  lemma ActiveInMeaning(environments: seq<string>, env: string)
    ensures ActiveIn(environments, env)
      <==> environments == [] || exists e :: e in environments && (e == env || ('/' !in e && e + "/" <= env))
  {
    MatchEnvKeyMeaning(env, environments);
    assert forall e :: Covers(e, env) <==> e == env || ('/' !in e && e + "/" <= env);
  }

  /** `afterCoversDependentEnvs` on the two merged filters: every entry of the dependent matches the dependency's. */
  predicate AfterCoversDependentEnvs(dependent: seq<string>, dep: seq<string>) {
    |dep| == 0 || (|dependent| != 0 && forall env :: env in dependent ==> MatchEnvKey(env, dep).Some?)
  }

  /** Covering is transitive, which is why checking the filter entries is enough. */
  lemma CoversTransitive(a: string, b: string, env: string)
    requires Covers(a, b) && Covers(b, env)
    ensures Covers(a, env)
  {
    if a != b && b != env {
      CoversBySlash(a, b);
      assert false;
    }
  }

  /** A name no entry of the list covers. */
  function Fresh(entries: seq<string>): (env: string)
    ensures '/' !in env
    ensures forall e :: e in entries ==> |e| < |env|
  {
    if entries == [] then "x"
    else
      var rest := Fresh(entries[1..]);
      rest + seq(|entries[0]|, i => 'x')
  }

  /** The check is exact over all environment names, of which there are infinitely many. */
  lemma AfterCoversExactly(dependent: seq<string>, dep: seq<string>)
    ensures AfterCoversDependentEnvs(dependent, dep)
      <==> forall env :: ActiveIn(dependent, env) ==> ActiveIn(dep, env)
  {
    if AfterCoversDependentEnvs(dependent, dep) {
      forall env | ActiveIn(dependent, env) ensures ActiveIn(dep, env) {
        if |dep| != 0 {
          MatchEnvKeyMeaning(env, dependent);
          var e :| e in dependent && Covers(e, env);
          MatchEnvKeyMeaning(e, dep);
          var k :| k in dep && Covers(k, e);
          CoversTransitive(k, e, env);
          MatchEnvKeyMeaning(env, dep);
        }
      }
    } else if |dependent| == 0 {
      var env := Fresh(dep);
      assert ActiveIn(dependent, env) && !ActiveIn(dep, env);
    } else {
      var env :| env in dependent && MatchEnvKey(env, dep).None?;
      assert ActiveIn(dependent, env) && !ActiveIn(dep, env);
    }
  }
}

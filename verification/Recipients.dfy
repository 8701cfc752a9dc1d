/** Matching a bundle's ciphertext recipients with the key chains committed at the pushed tip. */
module Recipients {
  import opened Wrappers
  import opened Ordering
  import opened Manifests

  // The first key of a chain that is a recipient and is still free.
  function Pick(recipients: seq<string>, chain: seq<string>, matched: set<string>): Option<string> {
    if chain == [] then None
    else if chain[0] in recipients && chain[0] !in matched then Some(chain[0])
    else Pick(recipients, chain[1..], matched)
  }

  function Greedy(recipients: seq<string>, chains: seq<seq<string>>, matched: set<string>): bool {
    if chains == [] then true else
      match Pick(recipients, chains[0], matched)
      case None => false
      case Some(key) => Greedy(recipients, chains[1..], matched + {key})
  }

  predicate Compatible(recipients: seq<string>, chains: seq<seq<string>>) {
    |recipients| == |chains| && Greedy(recipients, chains, {})
  }

  method CompatibleRecipients(recipients: seq<string>, chains: seq<seq<string>>) returns (ok: bool)
    ensures ok == Compatible(recipients, chains)
  {
    if |recipients| != |chains| {
      return false;
    }
    var matched: set<string> := {};
    for i := 0 to |chains|
      invariant Greedy(recipients, chains, {}) == Greedy(recipients, chains[i..], matched)
    {
      var found, j, chain := false, 0, chains[i];
      assert chain[0..] == chain && chains[i..][0] == chain && chains[i..][1..] == chains[i + 1..];
      while j < |chain| && !found
        invariant 0 <= j <= |chain|
        invariant !found ==> Pick(recipients, chain, matched) == Pick(recipients, chain[j..], matched)
        invariant found ==> j < |chain| && Pick(recipients, chain, matched) == Some(chain[j])
        decreases |chain| - j, !found
      {
        if chain[j] in recipients && chain[j] !in matched {
          found := true;
        } else {
          assert chain[j..][1..] == chain[j + 1..];
          j := j + 1;
        }
      }
      if !found {
        return false;
      }
      matched := matched + {chain[j]};
    }
    return true;
  }

  // ----- What compatibility means -----

  // One recipient for each chain, drawn from that chain, none used twice.
  ghost predicate Assignment(recipients: seq<string>, chains: seq<seq<string>>, f: seq<string>) {
    && |f| == |chains|
    && (forall i | 0 <= i < |f| :: f[i] in chains[i] && f[i] in recipients)
    && (forall i, j | 0 <= i < j < |f| :: f[i] != f[j])
  }

  // No recipient is offered by two different chains.
  predicate Unshared(recipients: seq<string>, chains: seq<seq<string>>) {
    forall r, i, j | r in recipients && 0 <= i < j < |chains| :: r !in chains[i] || r !in chains[j]
  }

  lemma {:induction false} PickIsFree(recipients: seq<string>, chain: seq<string>, matched: set<string>)
    ensures
      match Pick(recipients, chain, matched)
      case Some(key) => key in chain && key in recipients && key !in matched
      case None => forall key | key in chain && key in recipients :: key in matched
  {
    if chain != [] {
      PickIsFree(recipients, chain[1..], matched);
      assert forall key | key in chain :: key == chain[0] || key in chain[1..];
    }
  }

  lemma {:induction false} GreedyAssigns(recipients: seq<string>, chains: seq<seq<string>>, matched: set<string>)
    returns (f: seq<string>)
    requires Greedy(recipients, chains, matched)
    ensures Assignment(recipients, chains, f) && forall i | 0 <= i < |f| :: f[i] !in matched
  {
    if chains == [] {
      f := [];
    } else {
      PickIsFree(recipients, chains[0], matched);
      var key := Pick(recipients, chains[0], matched).value;
      var rest := GreedyAssigns(recipients, chains[1..], matched + {key});
      f := [key] + rest;
    }
  }

  lemma {:induction false} GreedyFinds(recipients: seq<string>, chains: seq<seq<string>>, matched: set<string>,
    f: seq<string>)
    requires Assignment(recipients, chains, f) && Unshared(recipients, chains)
    requires forall key, i | key in matched && 0 <= i < |chains| :: key !in chains[i]
    ensures Greedy(recipients, chains, matched)
  {
    if chains != [] {
      PickIsFree(recipients, chains[0], matched);
      assert f[0] in chains[0] && f[0] in recipients && f[0] !in matched;
      var key := Pick(recipients, chains[0], matched).value;
      forall k, i | k in matched + {key} && 0 <= i < |chains[1..]| ensures k !in chains[1..][i] {
        assert chains[1..][i] == chains[i + 1];
      }
      GreedyFinds(recipients, chains[1..], matched + {key}, f[1..]);
    }
  }

  // Acceptance gives a bijection between a duplicate-free recipient list and the chains.
  lemma AcceptanceIsBijection(recipients: seq<string>, chains: seq<seq<string>>) returns (f: seq<string>)
    requires Compatible(recipients, chains)
    requires forall i, j | 0 <= i < j < |recipients| :: recipients[i] != recipients[j]
    ensures Assignment(recipients, chains, f)
    ensures forall r :: r in recipients <==> r in f
  {
    f := GreedyAssigns(recipients, chains, {});
    DistinctSize(f);
    DistinctSize(recipients);
    var used, all := set r | r in f, set r | r in recipients;
    SameSizeSubset(used, all);
    assert forall r :: r in f <==> r in used;
    assert forall r :: r in recipients <==> r in all;
  }

  lemma {:induction false} DistinctSize(s: seq<string>)
    requires forall i, j | 0 <= i < j < |s| :: s[i] != s[j]
    ensures |(set x | x in s)| == |s|
  {
    if s != [] {
      var n := |s| - 1;
      DistinctSize(s[..n]);
      assert (set x | x in s) == (set x | x in s[..n]) + {s[n]};
      assert s[n] !in s[..n];
    }
  }

  lemma SameSizeSubset(a: set<string>, b: set<string>)
    requires a <= b && |a| == |b|
    ensures a == b
  {
    assert |b| == |a| + |b - a| by { assert b == a + (b - a); }
  }

  // When chains share no recipient, the greedy choice accepts exactly when some assignment exists.
  lemma CompleteWhenUnshared(recipients: seq<string>, chains: seq<seq<string>>)
    requires Unshared(recipients, chains)
    ensures Compatible(recipients, chains) <==>
      |recipients| == |chains| && exists f :: Assignment(recipients, chains, f)
  {
    if Compatible(recipients, chains) {
      var f := GreedyAssigns(recipients, chains, {});
    }
    if |recipients| == |chains| && exists f :: Assignment(recipients, chains, f) {
      var f :| Assignment(recipients, chains, f);
      GreedyFinds(recipients, chains, {}, f);
    }
  }

  // A fingerprint of one repeated digit.
  function Repeated(digit: char): string {
    seq(128, _ => digit)
  }

  // With a shared key the first-fit choice can miss an assignment that exists, for a list a manifest may well hold.
  lemma GreedyMissesSharedKeys()
    ensures
      var a, b := Repeated('a'), Repeated('b');
      var recipients, chains := [a, b], [[a, b], [a]];
      && Policy(recipients)
      && !Compatible(recipients, chains) && Assignment(recipients, chains, [b, a]) && !Unshared(recipients, chains)
  {
    var a, b := Repeated('a'), Repeated('b');
    var recipients, chains := [a, b], [[a, b], [a]];
    assert a[0] == 'a' && b[0] == 'b';
    assert Policy(recipients) by {
      assert !Leq(b, a);
      assert IsRecipient(a) && IsRecipient(b);
    }
    assert Pick(recipients, [a, b], {}) == Some(a);
    assert Pick(recipients, [a], {a}) == None by {
      PickIsFree(recipients, [a], {a});
    }
    assert chains[1..] == [[a]] && chains[1..][0] == [a];
    var none: set<string> := {};
    assert none + {a} == {a};
    assert !Greedy(recipients, chains[1..], {a});
    assert a in recipients && a in chains[0] && a in chains[1];
  }
}

/** The channel sweep of `_removeUser(nick)`: erase an empty channel, go back to begin(),
    and step past the new first channel without looking at it. */
module Sweeping {
  import opened Text
  import opened Model

  lemma LeastStays(keys: set<string>, k: string)
    requires k in keys && k != Least(keys)
    ensures keys - {k} != {} && Least(keys - {k}) == Least(keys)
  {
    assert IsLeast(Least(keys), keys - {k});
    LeastIsUnique(Least(keys), Least(keys - {k}), keys - {k});
  }

  lemma SortedFirst(keys: set<string>)
    requires keys != {}
    ensures Sorted(keys) == [Least(keys)] + Sorted(keys - {Least(keys)})
  {
  }

  /** The state of the sweep: what is left of the channels c0 is c, the iterator stands at
      position i, and once it has restarted it never looks at position 0 again. */
  predicate SweepAt(c0: map<string, ChannelV>, c: map<string, ChannelV>, i: nat, restarted: bool) {
    var ks := Sorted(c.Keys);
    && i <= |ks|
    && (forall k :: k in c ==> k in c0 && c[k] == c0[k])
    && (forall k :: k in c0 && k !in c ==> c0[k].members == map[])
    && (forall j :: (if restarted then 1 else 0) <= j < i ==> c[ks[j]].members != map[])
    && (if restarted then i >= 1 && c.Keys != {} && First(c0, c) else c == c0)
  }

  /** Which channel is first once the sweep has restarted. */
  predicate First(c0: map<string, ChannelV>, c: map<string, ChannelV>)
    requires c.Keys != {}
  {
    c0.Keys != {} &&
    var first := Least(c0.Keys);
    if c0[first].members == map[] then c0.Keys - {first} != {} && Least(c.Keys) == Least(c0.Keys - {first})
    else Least(c.Keys) == first
  }

  /** Erasing the empty channel at position i and starting over at position 1. */
  lemma SweepErases(c0: map<string, ChannelV>, c: map<string, ChannelV>, i: nat, restarted: bool)
    requires SweepAt(c0, c, i, restarted) && i < |c.Keys| && c[Sorted(c.Keys)[i]].members == map[]
    requires |c.Keys| >= 2
    ensures SweepAt(c0, c - {Sorted(c.Keys)[i]}, 1, true)
  {
    var k := Sorted(c.Keys)[i];
    assert k in Sorted(c.Keys);
    assert (c - {k}).Keys == c.Keys - {k};
    assert |c.Keys - {k}| == |c.Keys| - 1;
    FirstAfter(c0, c, i, restarted);
  }

  lemma FirstAfter(c0: map<string, ChannelV>, c: map<string, ChannelV>, i: nat, restarted: bool)
    requires SweepAt(c0, c, i, restarted) && i < |c.Keys| && c[Sorted(c.Keys)[i]].members == map[]
    requires (c - {Sorted(c.Keys)[i]}).Keys == c.Keys - {Sorted(c.Keys)[i]} != {}
    ensures First(c0, c - {Sorted(c.Keys)[i]})
  {
    var ks := Sorted(c.Keys);
    SortedFirst(c.Keys);
    if i > 0 {
      LessIsTotal(ks[0], ks[i]);
      LeastStays(c.Keys, ks[i]);
    }
  }

  /** At the end of the loop the sweep has kept exactly the survivors. */
  lemma SweepEnds(c0: map<string, ChannelV>, c: map<string, ChannelV>, restarted: bool)
    requires SweepAt(c0, c, |c.Keys|, restarted)
    ensures c == Sweep(c0)
  {
    var ks := Sorted(c.Keys);
    forall k | k in c ensures c0[k].members != map[] || SweepMisses(c0, k) {
      assert k in ks;
      var j :| 0 <= j < |ks| && ks[j] == k;
      if j == 0 && restarted && c0[k].members == map[] {
        SortedFirst(c.Keys);
        MissedIsSecond(c0, k);
      }
    }
    forall k | k in c0 && SweepMisses(c0, k) ensures k in c {
      if !restarted {
        var first := Least(c0.Keys);
        assert first in ks;
      }
    }
  }

  lemma MissedIsSecond(c0: map<string, ChannelV>, k: string)
    requires c0.Keys != {} && c0[Least(c0.Keys)].members == map[]
    requires c0.Keys - {Least(c0.Keys)} != {} && k == Least(c0.Keys - {Least(c0.Keys)})
    ensures SweepMisses(c0, k)
  {
    assert |c0.Keys| == |c0.Keys - {Least(c0.Keys)}| + 1;
    assert |c0.Keys - {Least(c0.Keys)}| > 0;
  }

  /** Erasing the only channel ends the sweep at once. */
  lemma SweepEmpties(c0: map<string, ChannelV>, c: map<string, ChannelV>, restarted: bool)
    requires SweepAt(c0, c, 0, restarted) && |c.Keys| == 1 && c[Least(c.Keys)].members == map[]
    ensures Sweep(c0) == map[]
  {
    assert c == c0;
    var k := Least(c0.Keys);
    assert c0.Keys - {k} == {} by {
      assert |c0.Keys - {k}| == 0;
    }
  }

  lemma SweepPasses(c0: map<string, ChannelV>, c: map<string, ChannelV>, i: nat, restarted: bool)
    requires SweepAt(c0, c, i, restarted) && i < |c.Keys| && c[Sorted(c.Keys)[i]].members != map[]
    ensures SweepAt(c0, c, i + 1, restarted)
  {
  }

  /** One erasure: either the sweep is over, nothing being left, or it goes on at 1. */
  lemma SweepErasesOrEnds(c0: map<string, ChannelV>, c: map<string, ChannelV>, i: nat, restarted: bool)
    requires SweepAt(c0, c, i, restarted) && i < |c.Keys| && c[Sorted(c.Keys)[i]].members == map[]
    ensures var left := c - {Sorted(c.Keys)[i]};
            if left.Keys == {} then Sweep(c0) == map[] == left else SweepAt(c0, left, 1, true)
  {
    var ks := Sorted(c.Keys);
    var left := c - {ks[i]};
    assert ks[i] in ks;
    assert left.Keys == c.Keys - {ks[i]} && |left.Keys| == |c.Keys| - 1;
    if |c.Keys| == 1 {
      SortedFirst(c.Keys);
      SweepEmpties(c0, c, restarted);
      assert left.Keys == {};
    } else {
      SweepErases(c0, c, i, restarted);
    }
  }

  /** k comes second, after an empty first channel. */
  predicate IsSkipped(channels: map<string, ChannelV>, ks: seq<string>, k: string) {
    |ks| >= 2 && k == ks[1] && ks[0] in channels && channels[ks[0]].members == map[]
  }

  /** The sweep's result is exact: every channel with members survives, every empty one is
      erased, except the second in key order when the first is empty too. */
  lemma SweepExactly(channels: map<string, ChannelV>, k: string)
    requires k in channels
    ensures k in Sweep(channels) <==> channels[k].members != map[] || IsSkipped(channels, Sorted(channels.Keys), k)
    ensures k in Sweep(channels) ==> Sweep(channels)[k] == channels[k]
  {
    var ks := Sorted(channels.Keys);
    SortedFirst(channels.Keys);
    var rest := channels.Keys - {Least(channels.Keys)};
    assert |rest| == |channels.Keys| - 1;
    if rest != {} {
      SortedFirst(rest);
    }
  }

  predicate StartsEmpty(channels: map<string, ChannelV>, ks: seq<string>) {
    && |ks| >= 2 && ks[0] in channels && ks[1] in channels
    && channels[ks[0]].members == map[] == channels[ks[1]].members
  }

  /** So a sweep leaves no empty channel behind if and only if the first two channels in
      key order were not both empty. */
  lemma SweepCleansUnless(channels: map<string, ChannelV>)
    ensures (forall k :: k in Sweep(channels) ==> channels[k].members != map[])
       <==> !StartsEmpty(channels, Sorted(channels.Keys))
  {
    var ks := Sorted(channels.Keys);
    if |ks| >= 2 {
      assert ks[0] in ks && ks[1] in ks;
      SweepExactly(channels, ks[1]);
    }
    forall k | k in Sweep(channels) ensures channels[k].members != map[] || IsSkipped(channels, ks, k) {
      SweepExactly(channels, k);
    }
  }
}

/** The peer list: look-up, removal by name, and ordered subsequences. */
module Peers {
  import opened Basics

  datatype Peer = Peer(name: string, ips: seq<string>, controlServer: string)

  /** The first peer of that name. */
  function Find(peers: seq<Peer>, name: string): (r: Option<Peer>)
    ensures r.Some? ==> r.value in peers && r.value.name == name
    ensures r.None? ==> forall p :: p in peers ==> p.name != name
  {
    if peers == [] then None else if peers[0].name == name then Some(peers[0]) else Find(peers[1..], name)
  }

  /** What is found is the first of its name. */
  lemma {:induction false} FindIsFirst(peers: seq<Peer>, name: string) returns (k: nat)
    ensures k <= |peers| && forall j :: 0 <= j < k ==> peers[j].name != name
    ensures Find(peers, name) == if k == |peers| then None else Some(peers[k])
    ensures k < |peers| ==> peers[k].name == name
  {
    if peers == [] || peers[0].name == name {
      k := 0;
    } else {
      k := FindIsFirst(peers[1..], name);
      assert forall j :: 1 <= j < |peers| ==> peers[j] == peers[1..][j - 1];
      k := k + 1;
    }
  }

  /** The list without the peers of that name. */
  function Without(peers: seq<Peer>, name: string): (r: seq<Peer>)
    ensures forall p :: p in r <==> p in peers && p.name != name
  {
    if peers == [] then []
    else
      var init, last := peers[..|peers| - 1], peers[|peers| - 1];
      assert peers == init + [last];
      if last.name == name then Without(init, name) else Without(init, name) + [last]
  }

  /** The others stay in order. */
  lemma {:induction false} WithoutKeepsOrder(peers: seq<Peer>, name: string)
    ensures Subsequence(Without(peers, name), peers)
  {
    if peers == [] {
    } else {
      var init, last := peers[..|peers| - 1], peers[|peers| - 1];
      var rest := Without(init, name);
      WithoutKeepsOrder(init, name);
      assert (rest + [last])[..|rest|] == rest;
    }
  }

  lemma PushCopies(peers: seq<Peer>, last: Peer, p: Peer)
    ensures multiset(peers + [last])[p] == multiset(peers)[p] + if p == last then 1 else 0
  {
  }

  /** Each of the others stays as often as it was listed. */
  lemma {:induction false} WithoutKeepsCopies(peers: seq<Peer>, name: string, p: Peer)
    ensures multiset(Without(peers, name))[p] == if p.name == name then 0 else multiset(peers)[p]
  {
    if peers == [] {
    } else {
      var init, last := peers[..|peers| - 1], peers[|peers| - 1];
      WithoutKeepsCopies(init, name, p);
      assert peers == init + [last];
      PushCopies(init, last, p);
      PushCopies(Without(init, name), last, p);
    }
  }

  /** s can be had from t by leaving out elements. */
  predicate Subsequence(s: seq<Peer>, t: seq<Peer>) {
    s == [] ||
    (t != [] && ((s[|s| - 1] == t[|t| - 1] && Subsequence(s[..|s| - 1], t[..|t| - 1])) || Subsequence(s, t[..|t| - 1])))
  }

  lemma {:induction false} SubsequenceRefl(s: seq<Peer>)
    ensures Subsequence(s, s)
  {
    if s == [] {
    } else {
      SubsequenceRefl(s[..|s| - 1]);
    }
  }

  lemma {:induction false} SubsequenceTrans(r: seq<Peer>, s: seq<Peer>, t: seq<Peer>)
    requires Subsequence(r, s) && Subsequence(s, t)
    ensures Subsequence(r, t)
    decreases |s| + |t|
  {
    if r != [] && s != [] && t != [] {
      if Subsequence(s, t[..|t| - 1]) {
        SubsequenceTrans(r, s, t[..|t| - 1]);
      } else if Subsequence(r, s[..|s| - 1]) {
        SubsequenceTrans(r, s[..|s| - 1], t[..|t| - 1]);
      } else {
        SubsequenceTrans(r[..|r| - 1], s[..|s| - 1], t[..|t| - 1]);
      }
    }
  }

  lemma {:induction false} SubsequenceMembers(s: seq<Peer>, t: seq<Peer>, p: Peer)
    requires Subsequence(s, t) && p in s
    ensures p in t
  {
    if Subsequence(s, t[..|t| - 1]) {
      SubsequenceMembers(s, t[..|t| - 1], p);
    } else if p != s[|s| - 1] {
      SubsequenceMembers(s[..|s| - 1], t[..|t| - 1], p);
    }
  }
}

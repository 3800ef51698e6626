// Free lists threaded through memory: the first word of a free block holds the address of the next one, 0 at the
// end. The pointer code of the caches computes the operations on sequences that the allocator is stated with.
module IntrusiveLists {
  import opened PageSpans
  import opened Blocks

  type Words = map<Addr, Addr>

  // The list that starts at head has exactly the nodes s.
  ghost predicate Chain(words: Words, head: Addr, s: seq<Addr>)
    decreases |s|
  {
    if s == [] then head == 0
    else head == s[0] && head != 0 && head in words && Chain(words, words[head], s[1..])
  }

  // Only the words of its own nodes matter to a list.
  lemma {:induction false} ChainFrame(words: Words, words': Words, head: Addr, s: seq<Addr>)
    requires Chain(words, head, s) && forall b :: b in s && b in words ==> b in words' && words'[b] == words[b]
    ensures Chain(words', head, s)
    decreases |s|
  {
    if s != [] { ChainFrame(words, words', words[head], s[1..]); }
  }

  lemma {:induction false} ChainFrom(words: Words, head: Addr, s: seq<Addr>, k: nat)
    requires Chain(words, head, s) && k < |s|
    ensures s[k] != 0 && s[k] in words && Chain(words, words[s[k]], s[k + 1..])
    decreases |s|
  {
    if k > 0 {
      ChainFrom(words, words[head], s[1..], k - 1);
      assert s[1..][k..] == s[k + 1..];
    }
  }

  // Cutting after node k, or joining there.
  lemma {:induction false} ChainCut(words: Words, head: Addr, s: seq<Addr>, k: nat, t: seq<Addr>, next: Addr)
    requires Chain(words, head, s) && k < |s| && NoDup(s) && Chain(words, next, t)
    requires s[k] !in t
    ensures Chain(words[s[k] := next], head, s[..k + 1] + t)
    decreases k
  {
    var words' := words[s[k] := next];
    var joined := s[..k + 1] + t;
    if k == 0 {
      ChainFrame(words, words', next, t);
      assert joined[1..] == t;
    } else {
      ChainCut(words, words[head], s[1..], k - 1, t, next);
      assert joined[1..] == s[1..][..k] + t;
      assert s[0] != s[k];
    }
  }

  lemma NoChain(words: Words)
    ensures Chain(words, 0, [])
  {}

  // Memory, of which the caches use one word for every free node.
  class Memory {
    var words: Words

    constructor ()
    {
      words := map[];
    }

    // The nodes of a new span.
    method Thread(start: Addr, end: Addr, a: nat)
      requires a > 0 && 0 < start < end
      modifies this
      ensures Chain(words, start, Threaded(start, end, a))
      ensures forall b :: b !in Threaded(start, end, a) ==>
        (b in words <==> b in old(words)) && (b in words ==> words[b] == old(words)[b])
    {
      var cur := start;
      ghost var done: seq<Addr> := [];
      while cur + a < end
        invariant start <= cur < end && Threaded(start, end, a) == done + Threaded(cur, end, a)
        invariant Linking(words, start, done, cur) && (forall b :: b in done ==> start <= b < cur)
        invariant forall b :: b !in done ==>
          (b in words <==> b in old(words)) && (b in words ==> words[b] == old(words)[b])
        decreases end - cur
      {
        LinkOne(words, start, done, cur, cur + a);
        words := words[cur := cur + a];
        done := done + [cur];
        cur := cur + a;
      }
      LinkEnd(words, start, done, cur);
      words := words[cur := 0];
    }

    // GetListLength.
    method Length(head: Addr, ghost s: seq<Addr>) returns (n: nat)
      requires Chain(words, head, s)
      ensures n == |s|
    {
      var cur := head;
      n := 0;
      while cur != 0
        invariant n <= |s| && Chain(words, cur, s[n..])
        decreases |s| - n
      {
        cur := words[cur];
        assert s[n..][1..] == s[n + 1..];
        n := n + 1;
      }
    }

    method Push(b: Addr, head: Addr, ghost s: seq<Addr>)
      requires Chain(words, head, s) && b !in s && b != 0
      modifies this
      ensures Chain(words, b, [b] + s) && words == old(words)[b := head]
    {
      ChainFrame(words, words[b := head], head, s);
      words := words[b := head];
      assert ([b] + s)[1..] == s;
    }

    // The first n nodes become a list of their own.
    method TakeBatch(head: Addr, n: nat, ghost s: seq<Addr>) returns (rest: Addr)
      requires Chain(words, head, s) && NoDup(s) && 1 <= n <= |s|
      modifies this
      ensures Chain(words, head, s[..n]) && Chain(words, rest, s[n..])
      ensures words == old(words)[s[n - 1] := 0]
    {
      var end := head;
      var i := 0;
      while i < n - 1
        invariant 0 <= i <= n - 1 && end == s[i] && words == old(words)
      {
        ChainFrom(words, head, s, i);
        end := words[end];
        i := i + 1;
      }
      ChainFrom(words, head, s, n - 1);
      rest := words[end];
      NoChain(words);
      ChainCut(words, head, s, n - 1, [], 0);
      assert s[..n] + [] == s[..n];
      ChainFrame(words, words[end := 0], rest, s[n..]);
      words := words[end := 0];
    }

    // The list t goes behind the last node of s.
    method Splice(head: Addr, other: Addr, ghost s: seq<Addr>, ghost t: seq<Addr>)
      requires Chain(words, head, s) && Chain(words, other, t) && NoDup(s) && s != []
      requires forall b :: b in s ==> b !in t
      modifies this
      ensures Chain(words, head, s + t) && words == old(words)[s[|s| - 1] := other]
    {
      var end := head;
      ghost var i := 0;
      ChainFrom(words, head, s, 0);
      while words[end] != 0
        invariant 0 <= i < |s| && end == s[i] && words == old(words)
        invariant end in words && Chain(words, words[end], s[i + 1..])
        decreases |s| - i
      {
        i := i + 1;
        end := words[end];
        ChainFrom(words, head, s, i);
      }
      assert i == |s| - 1;
      ChainCut(words, head, s, i, t, other);
      assert s[..i + 1] == s;
      words := words[end := other];
    }
  }

  // A list under construction: its nodes are linked up to the node that is written next.
  ghost predicate Linking(words: Words, start: Addr, done: seq<Addr>, cur: Addr) {
    && (if done == [] then cur == start else done[0] == start)
    && forall i :: 0 <= i < |done| ==> LinkedTo(words, done, i, cur)
  }

  predicate LinkedTo(words: Words, done: seq<Addr>, i: nat, cur: Addr)
    requires i < |done|
  {
    done[i] != 0 && done[i] in words && words[done[i]] == if i + 1 < |done| then done[i + 1] else cur
  }

  lemma LinkOne(words: Words, start: Addr, done: seq<Addr>, cur: Addr, next: Addr)
    requires Linking(words, start, done, cur) && cur != 0 && cur !in done
    ensures Linking(words[cur := next], start, done + [cur], next)
  {
    var done', words' := done + [cur], words[cur := next];
    forall i | 0 <= i < |done'| ensures LinkedTo(words', done', i, next) {
      if i < |done| { assert LinkedTo(words, done, i, cur) && done'[i] == done[i]; }
    }
  }

  lemma {:induction false} LinkedChain(words: Words, done: seq<Addr>)
    requires done != [] && Linking(words, done[0], done, 0)
    ensures Chain(words, done[0], done)
    decreases |done|
  {
    assert LinkedTo(words, done, 0, 0);
    if |done| > 1 {
      forall i | 0 <= i < |done| - 1
        ensures LinkedTo(words, done[1..], i, 0)
      {
        assert LinkedTo(words, done, i + 1, 0);
      }
      LinkedChain(words, done[1..]);
    }
  }

  lemma LinkEnd(words: Words, start: Addr, done: seq<Addr>, cur: Addr)
    requires Linking(words, start, done, cur) && cur != 0 && cur !in done
    ensures Chain(words[cur := 0], start, done + [cur])
  {
    LinkOne(words, start, done, cur, 0);
    LinkedChain(words[cur := 0], done + [cur]);
  }
}

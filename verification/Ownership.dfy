/**
Ownership by prefix. Release, force-unlock and dead-worker recovery recognise a worker's locks by the start of the owner
string, the worker id and a colon. Which ids this confuses, exactly.
*/
module Ownership {
  import opened Jobs

  predicate ColonFree(s: string) {
    ':' !in s
  }

  /** A claim loop's index in its worker, in decimal. */
  predicate IsIndex(s: string) {
    s != "" && (forall c :: c in s ==> '0' <= c <= '9') && (s[0] == '0' ==> |s| == 1)
  }

  lemma IndexIsColonFree(s: string)
    requires IsIndex(s)
    ensures ColonFree(s)
  {
  }

  /** Comparing a prefix character by character. */
  lemma PrefixCons(a: char, s: string, b: char, t: string)
    ensures [a] + s <= [b] + t <==> a == b && s <= t
  {
    if [a] + s <= [b] + t {
      assert ([a] + s)[0] == ([b] + t)[0];
      assert s == ([a] + s)[1..] && t[..|s|] == ([b] + t)[1..|s| + 1];
    }
    if a == b && s <= t {
      assert ([b] + t)[..|s| + 1] == [b] + t[..|s|];
    }
  }

  lemma ColonFreeStart(s: string, prefix: string)
    ensures prefix + ":" <= s ==> !ColonFree(s)
  {
    if prefix + ":" <= s {
      assert s[|prefix|] == ':' && s[|prefix|] in s;
    }
  }

  /** What a worker id followed by a colon may be a prefix of. */
  lemma {:induction false} PrefixAcrossColon(worker: string, head: string, tail: string)
    ensures worker + ":" <= head + ":" + tail <==>
            || worker + ":" <= head
            || worker == head
            || (head + ":" <= worker && worker[|head| + 1..] + ":" <= tail)
    decreases |head|
  {
    if head == "" {
      assert head + ":" + tail == [':'] + tail;
      if worker == "" {
        assert worker + ":" == ":";
      } else {
        assert worker + ":" == [worker[0]] + (worker[1..] + ":");
        PrefixCons(worker[0], worker[1..] + ":", ':', tail);
        assert head + ":" <= worker <==> worker[0] == ':';
      }
    } else {
      assert head + ":" + tail == [head[0]] + (head[1..] + ":" + tail);
      assert head == [head[0]] + head[1..] && head + ":" == [head[0]] + (head[1..] + ":");
      if worker == "" {
        assert worker + ":" == [':'] + "";
        PrefixCons(':', "", head[0], head[1..] + ":" + tail);
        PrefixCons(':', "", head[0], head[1..]);
      } else {
        assert worker == [worker[0]] + worker[1..] && worker + ":" == [worker[0]] + (worker[1..] + ":");
        PrefixCons(worker[0], worker[1..] + ":", head[0], head[1..] + ":" + tail);
        PrefixCons(worker[0], worker[1..] + ":", head[0], head[1..]);
        PrefixCons(head[0], head[1..] + ":", worker[0], worker[1..]);
        PrefixAcrossColon(worker[1..], head[1..], tail);
        assert head + ":" <= worker ==> worker[|head| + 1..] == worker[1..][|head[1..]| + 1..];
      }
    }
  }

  /** The id is the other worker's own, that of one of its loops, or all before a colon in the other's id. */
  predicate Takes(worker: string, other: string, index: string) {
    worker == other || worker == other + ":" + index || worker + ":" <= other
  }

  /**
  For all ids: the prefix test for `worker` accepts an owner string of worker `other` exactly in these three cases.
  */
  lemma PrefixOwnership(worker: string, other: string, index: string, suffix: string)
    requires IsIndex(index) && ColonFree(suffix)
    ensures OwnedBy(worker, FormatOwner(other, index, suffix)) <==> Takes(worker, other, index)
  {
    assert FormatOwner(other, index, suffix) == other + ":" + (index + ":" + suffix);
    IndexIsColonFree(index);
    hide IsIndex;
    PrefixAcrossColon(worker, other, index + ":" + suffix);
    if other + ":" <= worker {
      var rest := worker[|other| + 1..];
      PrefixAcrossColon(rest, index, suffix);
      ColonFreeStart(index, rest);
      ColonFreeStart(suffix, rest[if |index| + 1 <= |rest| then |index| + 1 else 0..]);
      assert worker == other + ":" + rest;
      assert rest == index <==> worker == other + ":" + index;
    } else {
      assert (other + ":" + index)[..|other| + 1] == other + ":";
    }
  }

  /**
  The ids of two workers get in each other's way: one continues the other with a colon, or with a colon and an index.
  */
  predicate Confusable(worker: string, other: string) {
    worker + ":" <= other || (other + ":" <= worker && IsIndex(worker[|other| + 1..]))
  }

  /**
  So a worker's test accepts no owner string of any loop of another worker exactly when the two ids are not confusable,
  whatever the random suffix.
  */
  lemma SeparateExactlyWhen(worker: string, other: string, suffix: string)
    requires worker != other && ColonFree(suffix)
    ensures !Confusable(worker, other) <==>
            forall index :: IsIndex(index) ==> !OwnedBy(worker, FormatOwner(other, index, suffix))
  {
    forall index | IsIndex(index) && !Confusable(worker, other)
      ensures !OwnedBy(worker, FormatOwner(other, index, suffix))
    {
      PrefixOwnership(worker, other, index, suffix);
      var looped := other + ":" + index;
      assert looped[..|other| + 1] == other + ":" && looped[|other| + 1..] == index;
    }
    if Confusable(worker, other) {
      var index := if worker + ":" <= other then "0" else worker[|other| + 1..];
      if !(worker + ":" <= other) {
        assert worker == other + ":" + index;
      }
      PrefixOwnership(worker, other, index, suffix);
      assert IsIndex(index) && OwnedBy(worker, FormatOwner(other, index, suffix));
    }
  }

  /** Ids without colons are never confusable. */
  lemma ColonFreeIdsAreSeparate(worker: string, other: string)
    requires ColonFree(worker) && ColonFree(other)
    ensures !Confusable(worker, other)
  {
    ColonFreeStart(other, worker);
    ColonFreeStart(worker, other);
  }

  /** Both ways it errs: worker `a` takes the jobs of worker `a:b`, and worker `a:0` those of loop 0 of worker `a`. */
  lemma ColonConfusesWorkers()
    ensures OwnedBy("a", FormatOwner("a:b", "0", "x"))
    ensures OwnedBy("a:0", FormatOwner("a", "0", "x"))
  {
    assert FormatOwner("a:b", "0", "x")[..2] == "a:";
    assert FormatOwner("a", "0", "x")[..4] == "a:0:";
  }
}

/** A row of membership filters that a key must fill one after the other. */
module AdmissionBank {

  /** The first filter from `i` on that lacks what the key needs there, or the size of the bank. */
  ghost function FirstLacking<P(!new)>(filters: seq<iset<P>>, need: seq<iset<P>>, i: nat): (n: nat)
    requires i <= |filters| == |need|
    ensures i <= n <= |filters|
    decreases |filters| - i
  {
    if i < |filters| && need[i] <= filters[i] then FirstLacking(filters, need, i + 1) else i
  }

  /** A request marks the key in the first filter that lacks it. */
  ghost function Ask<P(!new)>(filters: seq<iset<P>>, need: seq<iset<P>>): (after: seq<iset<P>>)
    requires |filters| == |need|
    ensures |after| == |filters|
  {
    var n := FirstLacking(filters, need, 0);
    if n == |filters| then filters else filters[n := filters[n] + need[n]]
  }

  ghost predicate Admitted<P(!new)>(filters: seq<iset<P>>, need: seq<iset<P>>)
    requires |filters| == |need|
  {
    forall i :: 0 <= i < |filters| ==> need[i] <= filters[i]
  }

  lemma {:induction false} FirstLackingIs<P(!new)>(filters: seq<iset<P>>, need: seq<iset<P>>, i: nat, n: nat)
    requires i <= n <= |filters| == |need|
    requires forall j :: i <= j < n ==> need[j] <= filters[j]
    requires n < |filters| ==> !(need[n] <= filters[n])
    ensures FirstLacking(filters, need, i) == n
    decreases n - i
  {
    if i < n { FirstLackingIs(filters, need, i + 1, n); }
  }

  /** How many filters of the bank, from `i` on, lack the key. */
  ghost function LackingFrom<P(!new)>(filters: seq<iset<P>>, need: seq<iset<P>>, i: nat): (n: nat)
    requires i <= |filters| == |need|
    ensures n <= |filters| - i
    decreases |filters| - i
  {
    if i == |filters| then 0 else (if need[i] <= filters[i] then 0 else 1) + LackingFrom(filters, need, i + 1)
  }

  ghost function Lacking<P(!new)>(filters: seq<iset<P>>, need: seq<iset<P>>): nat
    requires |filters| == |need|
  {
    LackingFrom(filters, need, 0)
  }

  lemma {:induction false} LackingAdmits<P(!new)>(filters: seq<iset<P>>, need: seq<iset<P>>, i: nat)
    requires i <= |filters| == |need|
    ensures LackingFrom(filters, need, i) == 0 <==> forall j :: i <= j < |filters| ==> need[j] <= filters[j]
    ensures var n := FirstLacking(filters, need, i);
      if n < |filters| then !(need[n] <= filters[n]) && LackingFrom(filters, need, i) > 0 else LackingFrom(filters, need, i) == 0
    decreases |filters| - i
  {
    if i < |filters| { LackingAdmits(filters, need, i + 1); }
  }

  /** Marking one filter never makes a key lacking; the marked key is lacking in one filter less. */
  lemma {:induction false} MarkLacking<P(!new)>(filters: seq<iset<P>>, asked: seq<iset<P>>, need: seq<iset<P>>,
          n: nat, i: nat)
    requires i <= |filters| == |need| == |asked| && n < |filters| && !(asked[n] <= filters[n])
    ensures var after := filters[n := filters[n] + asked[n]];
      && LackingFrom(after, need, i) <= LackingFrom(filters, need, i)
      && (asked == need ==> LackingFrom(after, need, i) == LackingFrom(filters, need, i) - if i <= n then 1 else 0)
    decreases |filters| - i
  {
    if i < |filters| { MarkLacking(filters, asked, need, n, i + 1); }
  }

  lemma {:induction false} AskLacking<P(!new)>(filters: seq<iset<P>>, asked: seq<iset<P>>, need: seq<iset<P>>)
    requires |filters| == |need| == |asked|
    ensures var after := Ask(filters, asked);
      && Lacking(after, need) <= Lacking(filters, need)
      && (asked == need && Lacking(filters, need) > 0 ==> Lacking(after, need) == Lacking(filters, need) - 1)
  {
    var n := FirstLacking(filters, asked, 0);
    LackingAdmits(filters, asked, 0);
    if n < |filters| { MarkLacking(filters, asked, need, n, 0); }
  }

  /** Requests for `key` in the trace that were turned away. */
  ghost function Rejections<K(!new), P(!new)>(filters: seq<iset<P>>, needs: K -> seq<iset<P>>, trace: seq<K>,
          key: K): nat
    requires forall k :: k in trace || k == key ==> |needs(k)| == |filters|
    decreases |trace|
  {
    if trace == [] then 0
    else
      assert trace[0] in trace && forall k :: k in trace[1..] ==> k in trace;
      (if trace[0] == key && !Admitted(filters, needs(key)) then 1 else 0)
      + Rejections(Ask(filters, needs(trace[0])), needs, trace[1..], key)
  }

  /** A key is turned away at most once for each filter that lacks it, whatever other keys are asked for. */
  lemma {:induction false} RejectedAtMost<K(!new), P(!new)>(filters: seq<iset<P>>, needs: K -> seq<iset<P>>,
          trace: seq<K>, key: K)
    requires forall k :: k in trace || k == key ==> |needs(k)| == |filters|
    ensures Rejections(filters, needs, trace, key) <= Lacking(filters, needs(key)) <= |filters|
    decreases |trace|
  {
    if trace != [] {
      assert trace[0] in trace && forall k :: k in trace[1..] ==> k in trace;
      LackingAdmits(filters, needs(key), 0);
      AskLacking(filters, needs(trace[0]), needs(key));
      RejectedAtMost(Ask(filters, needs(trace[0])), needs, trace[1..], key);
    }
  }

  /** Asked for alone, it is turned away exactly once for each of them. */
  lemma {:induction false} RejectedExactly<K(!new), P(!new)>(filters: seq<iset<P>>, needs: K -> seq<iset<P>>,
          trace: seq<K>, key: K)
    requires |needs(key)| == |filters| && forall k :: k in trace ==> k == key
    ensures var lacking := Lacking(filters, needs(key));
      Rejections(filters, needs, trace, key) == if |trace| < lacking then |trace| else lacking
    decreases |trace|
  {
    if trace != [] {
      assert trace[0] in trace && forall k :: k in trace[1..] ==> k in trace;
      LackingAdmits(filters, needs(key), 0);
      AskLacking(filters, needs(key), needs(key));
      RejectedExactly(Ask(filters, needs(key)), needs, trace[1..], key);
    }
  }

  lemma {:induction false} EmptyLacksAll<P(!new)>(filters: seq<iset<P>>, need: seq<iset<P>>, i: nat)
    requires i <= |filters| == |need|
    requires forall j :: 0 <= j < |filters| ==> filters[j] == iset{} && need[j] != iset{}
    ensures LackingFrom(filters, need, i) == |filters| - i
    decreases |filters| - i
  {
    if i < |filters| { EmptyLacksAll(filters, need, i + 1); }
  }
}

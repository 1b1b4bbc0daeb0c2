/** The three splitters, unique and join (base/nStringTool.h).  The limit is a size_t whose default, the
greatest one, is never reached. */
module Splitters {
  import opened Common

  /** ---- What splitting means ---- */

  /** The runs of str without the separator, `cur` being the beginning of the first. */
  function Tokens(str: string, c: char, cur: string): seq<string>
    decreases |str|
  {
    if str == [] then (if cur == [] then [] else [cur])
    else if str[0] != c then Tokens(str[1..], c, cur + [str[0]])
    else if cur == [] then Tokens(str[1..], c, [])
    else [cur] + Tokens(str[1..], c, [])
  }

  function Take(s: seq<string>, limit: nat): seq<string> {
    if |s| <= limit then s else s[..limit]
  }

  /** The first so many, and all if there are no more. */
  lemma TakeIsFront(s: seq<string>, limit: nat)
    ensures Take(s, limit) <= s && |Take(s, limit)| == if |s| < limit then |s| else limit
  {
  }

  predicate Matches(str: string, i: nat, sep: string) {
    i + |sep| <= |str| && str[i..i + |sep|] == sep
  }

  /** The length of the first separator of the list that stands at i. */
  function MatchAt(str: string, i: nat, seps: seq<string>): (n: Option<nat>)
    ensures n.Some? ==> i + n.value <= |str|
  {
    if seps == [] then None
    else if Matches(str, i, seps[0]) then Some(|seps[0]|)
    else MatchAt(str, i, seps[1..])
  }

  lemma {:induction false} MatchesSome(str: string, i: nat, seps: seq<string>, k: nat)
    requires k < |seps| && Matches(str, i, seps[k])
    ensures MatchAt(str, i, seps).Some?
  {
    if k > 0 {
      MatchesSome(str, i, seps[1..], k - 1);
    }
  }

  /** The first of the list that stands at i. */
  ghost predicate FirstAt(str: string, i: nat, seps: seq<string>, k: nat) {
    k < |seps| && Matches(str, i, seps[k]) && forall j :: 0 <= j < k ==> !Matches(str, i, seps[j])
  }

  /** Of the separators that stand at a place the one that comes first in the list counts. */
  lemma {:induction false} MatchIsFirst(str: string, i: nat, seps: seq<string>)
    ensures MatchAt(str, i, seps) == None <==> forall k :: 0 <= k < |seps| ==> !Matches(str, i, seps[k])
    ensures MatchAt(str, i, seps).Some? ==>
              exists k: nat :: FirstAt(str, i, seps, k) && MatchAt(str, i, seps) == Some(|seps[k]|)
  {
    if seps != [] {
      var rest := seps[1..];
      MatchIsFirst(str, i, rest);
      if Matches(str, i, seps[0]) {
        assert FirstAt(str, i, seps, 0);
      } else if MatchAt(str, i, rest).Some? {
        var k: nat :| FirstAt(str, i, rest, k) && MatchAt(str, i, rest) == Some(|rest[k]|);
        FirstOfRest(str, i, seps, k);
      } else {
        forall k | 0 <= k < |seps| ensures !Matches(str, i, seps[k]) {
          assert k > 0 ==> seps[k] == rest[k - 1];
        }
      }
    }
  }

  lemma FirstOfRest(str: string, i: nat, seps: seq<string>, k: nat)
    requires seps != [] && !Matches(str, i, seps[0]) && FirstAt(str, i, seps[1..], k)
    ensures FirstAt(str, i, seps, k + 1)
  {
    forall j | 0 <= j < k + 1 ensures !Matches(str, i, seps[j]) {
      assert j > 0 ==> seps[j] == seps[1..][j - 1];
    }
  }

  predicate NoEmpty(seps: seq<string>) {
    forall k :: 0 <= k < |seps| ==> seps[k] != []
  }

  lemma {:induction false} MatchIsLong(str: string, i: nat, seps: seq<string>)
    requires NoEmpty(seps) && MatchAt(str, i, seps).Some?
    ensures MatchAt(str, i, seps).value > 0
  {
    if !Matches(str, i, seps[0]) {
      MatchIsLong(str, i, seps[1..]);
    }
  }

  /** Scanning from i never comes to a place where an empty separator counts. */
  predicate Advances(str: string, seps: seq<string>, i: nat)
    requires i <= |str|
    decreases |str| - i
  {
    i == |str| ||
    var m := MatchAt(str, i, seps);
    if m == None then Advances(str, seps, i + 1) else m.value > 0 && Advances(str, seps, i + m.value)
  }

  lemma {:induction false} NoEmptyAdvances(str: string, seps: seq<string>, i: nat)
    requires i <= |str| && NoEmpty(seps)
    ensures Advances(str, seps, i)
    decreases |str| - i
  {
    if i < |str| {
      var m := MatchAt(str, i, seps);
      if m == None {
        NoEmptyAdvances(str, seps, i + 1);
      } else {
        MatchIsLong(str, i, seps);
        NoEmptyAdvances(str, seps, i + m.value);
      }
    }
  }

  /** The non-empty pieces of str between separators, scanning from i, with a piece begun at `begin`; where
  several separators stand at one place the first of the list counts.  Nothing comes after a place
  where an empty one counts. */
  function Pieces(str: string, seps: seq<string>, begin: nat, i: nat): seq<string>
    requires begin <= i <= |str|
    decreases |str| - i
  {
    if i == |str| then (if begin < i then [str[begin..]] else [])
    else
      var m := MatchAt(str, i, seps);
      if m == None then Pieces(str, seps, begin, i + 1)
      else if m.value == 0 then []
      else
        var rest := Pieces(str, seps, i + m.value, i + m.value);
        if i != begin then [str[begin..i]] + rest else rest
  }

  lemma PiecesNext(str: string, seps: seq<string>, begin: nat, i: nat)
    requires begin <= i < |str| && Advances(str, seps, i)
    ensures MatchAt(str, i, seps) == None ==>
              Advances(str, seps, i + 1) && Pieces(str, seps, begin, i) == Pieces(str, seps, begin, i + 1)
    ensures MatchAt(str, i, seps).Some? ==>
              var next := i + MatchAt(str, i, seps).value;
              && next > i && Advances(str, seps, next)
              && Pieces(str, seps, begin, i) ==
                 if i != begin then [str[begin..i]] + Pieces(str, seps, next, next) else Pieces(str, seps, next, next)
  {
  }

  /** Nothing of the list stands anywhere in [from, to). */
  ghost predicate NoneIn(str: string, seps: seq<string>, from: nat, to: nat) {
    forall j :: from <= j < to ==> MatchAt(str, j, seps) == None
  }

  /** The separators from `from` on, each as [start, end): the next is the first place where one of them stands. */
  ghost predicate Cuts(str: string, seps: seq<string>, from: nat, cuts: seq<(nat, nat)>)
    decreases |cuts|
  {
    if cuts == [] then from <= |str| && NoneIn(str, seps, from, |str|)
    else
      var (start, end) := cuts[0];
      && from <= start < end <= |str| && NoneIn(str, seps, from, start)
      && MatchAt(str, start, seps) == Some(end - start)
      && Cuts(str, seps, end, cuts[1..])
  }

  /** What is between them, empty stretches left out. */
  ghost function Between(str: string, seps: seq<string>, from: nat, cuts: seq<(nat, nat)>): seq<string>
    requires Cuts(str, seps, from, cuts)
    decreases |cuts|
  {
    var piece := if cuts == [] then str[from..] else str[from..cuts[0].0];
    (if piece == [] then [] else [piece]) + if cuts == [] then [] else Between(str, seps, cuts[0].1, cuts[1..])
  }

  /** The pieces are the non-empty stretches between the separators. */
  lemma {:induction false} PiecesAreBetween(str: string, seps: seq<string>, begin: nat, i: nat)
    returns (cuts: seq<(nat, nat)>)
    requires begin <= i <= |str| && Advances(str, seps, i) && NoneIn(str, seps, begin, i)
    ensures Cuts(str, seps, begin, cuts) && Pieces(str, seps, begin, i) == Between(str, seps, begin, cuts)
    decreases |str| - i
  {
    if i == |str| {
      cuts := [];
    } else {
      var m := MatchAt(str, i, seps);
      if m == None {
        cuts := PiecesAreBetween(str, seps, begin, i + 1);
      } else {
        var next := i + m.value;
        var rest := PiecesAreBetween(str, seps, next, next);
        cuts := [(i, next)] + rest;
        assert cuts[1..] == rest;
        PiecesNext(str, seps, begin, i);
      }
    }
  }

  /** ---- The splitters ---- */

  /** split by a character. */
  method SplitChar(str: string, separator: char, resultLimit: nat) returns (result: seq<string>)
    ensures result == Take(Tokens(str, separator, []), resultLimit)
  {
    result := [];
    if resultLimit == 0 {
      return;
    }
    result := [[]];
    ghost var done := [];
    var i := 0;
    assert str[0..] == str && [] + Tokens(str, separator, []) == Tokens(str, separator, []);
    while i < |str|
      invariant 0 <= i <= |str| && 0 < |result| <= resultLimit && result == done + [result[|result| - 1]]
      invariant Tokens(str, separator, []) == done + Tokens(str[i..], separator, result[|result| - 1])
    {
      var back := result[|result| - 1];
      assert str[i..][0] == str[i] && str[i..][1..] == str[i + 1..];
      if str[i] == separator {
        if back != [] {
          Cut(done, back, Tokens(str[i + 1..], separator, []), resultLimit);
          if |result| == resultLimit {
            return;
          }
          done := result;
          result := result + [[]];
        }
      } else {
        result := result[|result| - 1 := back + [str[i]]];
      }
      i := i + 1;
    }
    if result[|result| - 1] == [] {
      result := result[..|result| - 1];
    }
  }

  lemma Cut(done: seq<string>, back: string, rest: seq<string>, limit: nat)
    ensures done + ([back] + rest) == done + [back] + rest
    ensures |done| + 1 == limit ==> Take(done + ([back] + rest), limit) == done + [back]
  {
  }

  /** `result` begins what is wanted, `rest` is still to come, and there is room for more. */
  ghost predicate Begun(all: seq<string>, result: seq<string>, rest: seq<string>, limit: nat) {
    |result| < limit && all == result + rest
  }

  lemma Push(all: seq<string>, result: seq<string>, piece: string, rest: seq<string>, limit: nat)
    requires Begun(all, result, [piece] + rest, limit)
    ensures if |result| + 1 == limit then Take(all, limit) == result + [piece]
            else Begun(all, result + [piece], rest, limit)
  {
    Cut(result, piece, rest, limit);
  }

  lemma Finish(all: seq<string>, result: seq<string>, last: seq<string>, limit: nat)
    requires Begun(all, result, last, limit) && |last| <= 1
    ensures Take(all, limit) == result + last
  {
  }

  /** std::string::find. */
  method Find(str: string, sep: string, begin: nat) returns (index: Option<nat>)
    requires begin <= |str|
    ensures index == None ==> forall k :: begin <= k <= |str| ==> !Matches(str, k, sep)
    ensures index.Some? ==> begin <= index.value && Matches(str, index.value, sep)
    ensures index.Some? ==> forall k :: begin <= k < index.value ==> !Matches(str, k, sep)
  {
    var k := begin;
    while k <= |str|
      invariant begin <= k <= |str| + 1 && forall j :: begin <= j < k ==> !Matches(str, j, sep)
    {
      if Matches(str, k, sep) {
        return Some(k);
      }
      k := k + 1;
    }
    index := None;
  }

  /** Scanning over a stretch without separators. */
  lemma {:induction false} NothingBetween(str: string, sep: string, begin: nat, i: nat, j: nat)
    requires begin <= i <= j <= |str| && sep != [] && forall k :: i <= k < j ==> !Matches(str, k, sep)
    ensures Pieces(str, [sep], begin, i) == Pieces(str, [sep], begin, j)
    decreases j - i
  {
    if i < j {
      assert [sep][1..] == [] && MatchAt(str, i, [sep]) == None;
      NothingBetween(str, sep, begin, i + 1, j);
    }
  }

  /** The next separator is at index. */
  lemma PieceFound(str: string, sep: string, begin: nat, index: nat)
    requires begin <= index && sep != [] && Matches(str, index, sep)
    requires forall k :: begin <= k < index ==> !Matches(str, k, sep)
    ensures var next := index + |sep|;
            next <= |str| && Pieces(str, [sep], begin, begin) ==
              (if index != begin then [str[begin..index]] + Pieces(str, [sep], next, next)
               else Pieces(str, [sep], next, next))
  {
    NothingBetween(str, sep, begin, begin, index);
    NoEmptyAdvances(str, [sep], index);
    PiecesNext(str, [sep], begin, index);
  }

  /** split by a string. */
  method SplitString(str: string, separator: string, resultLimit: nat) returns (result: seq<string>)
    ensures result ==
            if resultLimit == 0 then []
            else if separator == [] then [str]
            else Take(Pieces(str, [separator], 0, 0), resultLimit)
  {
    result := [];
    if resultLimit == 0 {
      return;
    }
    if separator == [] {
      return [str];
    }
    ghost var all := Pieces(str, [separator], 0, 0);
    var begin := 0;
    while true
      invariant begin <= |str| && Begun(all, result, Pieces(str, [separator], begin, begin), resultLimit)
      decreases |str| - begin
    {
      var index := Find(str, separator, begin);
      if index == None {
        NothingBetween(str, separator, begin, begin, |str|);
        break;
      }
      PieceFound(str, separator, begin, index.value);
      var len := index.value - begin;
      var next := index.value + |separator|;
      if len != 0 {
        Push(all, result, str[begin..index.value], Pieces(str, [separator], next, next), resultLimit);
        result := result + [str[begin..begin + len]];
        if |result| == resultLimit {
          return;
        }
      }
      begin := next;
    }
    Finish(all, result, Pieces(str, [separator], begin, |str|), resultLimit);
    if begin < |str| && |result| < resultLimit {
      result := result + [str[begin..]];
    }
  }

  /** unique: the first occurrences. */
  function Uniq(list: seq<string>): seq<string> {
    if list == [] then []
    else
      var front, last := list[..|list| - 1], list[|list| - 1];
      Uniq(front) + if last in Uniq(front) then [] else [last]
  }

  method Unique(list: seq<string>) returns (result: seq<string>)
    ensures result == Uniq(list)
  {
    result := [];
    var i := 0;
    while i < |list|
      invariant 0 <= i <= |list| && result == Uniq(list[..i])
    {
      var repeated, j := false, 0;
      while j < |result| && !repeated
        invariant 0 <= j <= |result| && (repeated <==> list[i] in result[..j])
      {
        if list[i] == result[j] {
          repeated := true;
        }
        j := j + 1;
      }
      assert repeated <==> list[i] in result by {
        assert repeated || result[..j] == result;
      }
      assert list[..i + 1][..i] == list[..i];
      if !repeated {
        result := result + [list[i]];
      }
      i := i + 1;
    }
    assert list[..i] == list;
  }

  /** Every string once, in the order of the first occurrences. */
  lemma {:induction false} UniqFacts(list: seq<string>)
    ensures forall x :: x in Uniq(list) <==> x in list
    ensures forall i, j :: 0 <= i < j < |Uniq(list)| ==> Uniq(list)[i] != Uniq(list)[j]
    ensures NoEmpty(list) ==> NoEmpty(Uniq(list))
  {
    if list != [] {
      var front, last := list[..|list| - 1], list[|list| - 1];
      UniqFacts(front);
      assert list == front + [last];
    }
  }

  /** Of two different strings the one that occurs first comes first. */
  lemma {:induction false} UniqOrder(list: seq<string>, i: nat, j: nat) returns (a: nat)
    requires i < j < |Uniq(list)|
    ensures a < |list| && list[a] == Uniq(list)[i] && Uniq(list)[j] !in list[..a + 1]
  {
    var front, last := list[..|list| - 1], list[|list| - 1];
    UniqFacts(list);
    UniqFacts(front);
    if j < |Uniq(front)| {
      a := UniqOrder(front, i, j);
      assert front[..a + 1] == list[..a + 1];
    } else {
      assert Uniq(list)[i] in front;
      a :| 0 <= a < |front| && front[a] == Uniq(list)[i];
      assert forall x :: x in list[..a + 1] ==> x in front;
    }
  }

  lemma {:induction false} MatchConcat(str: string, i: nat, a: seq<string>, b: seq<string>)
    ensures MatchAt(str, i, a + b) == if MatchAt(str, i, a).Some? then MatchAt(str, i, a) else MatchAt(str, i, b)
  {
    if a == [] {
      assert a + b == b;
    } else {
      assert (a + b)[1..] == a[1..] + b;
      MatchConcat(str, i, a[1..], b);
    }
  }

  /** Leaving out repetitions does not change what stands where. */
  lemma {:induction false} UniqMatches(str: string, i: nat, list: seq<string>)
    ensures MatchAt(str, i, Uniq(list)) == MatchAt(str, i, list)
  {
    if list != [] {
      var front, last := list[..|list| - 1], list[|list| - 1];
      UniqMatches(str, i, front);
      UniqFacts(front);
      assert list == front + [last];
      MatchConcat(str, i, front, [last]);
      if last in Uniq(front) {
        assert Uniq(list) == Uniq(front);
        var k :| 0 <= k < |front| && front[k] == last;
        if Matches(str, i, last) {
          MatchesSome(str, i, front, k);
        }
      } else {
        MatchConcat(str, i, Uniq(front), [last]);
      }
    }
  }

  /** One separator after the other at a place, as the inner loop tries them. */
  method FirstMatch(str: string, i: nat, seps: seq<string>) returns (n: Option<nat>)
    ensures n == MatchAt(str, i, seps)
  {
    var k := 0;
    assert seps[0..] == seps;
    while k < |seps|
      invariant 0 <= k <= |seps| && MatchAt(str, i, seps) == MatchAt(str, i, seps[k..])
    {
      assert seps[k..][0] == seps[k] && seps[k..][1..] == seps[k + 1..];
      if Matches(str, i, seps[k]) {
        return Some(|seps[k]|);
      }
      k := k + 1;
    }
    n := None;
  }

  lemma {:induction false} PiecesUniq(str: string, list: seq<string>, begin: nat, i: nat)
    requires begin <= i <= |str|
    ensures Pieces(str, Uniq(list), begin, i) == Pieces(str, list, begin, i)
    ensures Advances(str, Uniq(list), i) == Advances(str, list, i)
    decreases |str| - i
  {
    if i < |str| {
      UniqMatches(str, i, list);
      var m := MatchAt(str, i, list);
      if m == None {
        PiecesUniq(str, list, begin, i + 1);
      } else if m.value > 0 {
        PiecesUniq(str, list, i + m.value, i + m.value);
      }
    }
  }

  /** split by a list of separators, for a string and a list on which the loop ends; see LoopEnds. */
  method SplitList(str: string, separatorList: seq<string>, resultLimit: nat) returns (result: seq<string>)
    requires resultLimit == 0 || separatorList == [] || Advances(str, separatorList, 0)
    ensures result ==
            if resultLimit == 0 then []
            else if separatorList == [] then [str]
            else Take(Pieces(str, separatorList, 0, 0), resultLimit)
  {
    result := [];
    if resultLimit == 0 {
      return;
    }
    var splitSeparatorList := Unique(separatorList);
    if separatorList == [] {
      return [str];
    }
    PiecesUniq(str, separatorList, 0, 0);
    result := ScanList(str, splitSeparatorList, resultLimit);
  }

  method ScanList(str: string, seps: seq<string>, resultLimit: nat) returns (result: seq<string>)
    requires Advances(str, seps, 0) && resultLimit > 0
    ensures result == Take(Pieces(str, seps, 0, 0), resultLimit)
  {
    result := [];
    ghost var all := Pieces(str, seps, 0, 0);
    var begin: nat, i: nat := 0, 0;
    while i < |str|
      invariant begin <= i <= |str| && Advances(str, seps, i)
      invariant Begun(all, result, Pieces(str, seps, begin, i), resultLimit)
    {
      var m := FirstMatch(str, i, seps);
      PiecesNext(str, seps, begin, i);
      if m.Some? {
        var next := i + m.value;
        if i != begin {
          Push(all, result, str[begin..i], Pieces(str, seps, next, next), resultLimit);
          result := result + [str[begin..i]];
          if |result| == resultLimit {
            return;
          }
        }
        begin, i := next, next;
      } else {
        i := i + 1;
      }
    }
    Finish(all, result, Pieces(str, seps, begin, |str|), resultLimit);
    if begin < |str| && |result| < resultLimit {
      result := result + [str[begin..]];
    }
  }

  /** ---- When the loop over a list of separators ends ---- */

  datatype Scan = Scan(begin: nat, i: nat, result: seq<string>)

  /** The loop is over, or has returned with as many pieces as are wanted. */
  predicate IsOver(str: string, limit: nat, s: Scan) {
    s.i >= |str| || |s.result| == limit
  }

  /** One turn of the loop; over an empty separator i stays where it is. */
  function Turn(str: string, seps: seq<string>, s: Scan): (r: Scan)
    requires s.begin <= s.i < |str|
    ensures r.begin <= r.i <= |str|
  {
    var m := MatchAt(str, s.i, seps);
    if m == None then s.(i := s.i + 1)
    else Scan(s.i + m.value, s.i + m.value, s.result + if s.i != s.begin then [str[s.begin..s.i]] else [])
  }

  function Turns(str: string, seps: seq<string>, limit: nat, s: Scan, n: nat): Scan
    requires s.begin <= s.i <= |str|
    decreases n
  {
    if n == 0 || IsOver(str, limit, s) then s else Turns(str, seps, limit, Turn(str, seps, s), n - 1)
  }

  predicate OverAfter(str: string, seps: seq<string>, limit: nat, s: Scan, n: nat)
    requires s.begin <= s.i <= |str|
  {
    IsOver(str, limit, Turns(str, seps, limit, s, n))
  }

  lemma {:induction false} AdvancingEnds(str: string, seps: seq<string>, limit: nat, s: Scan) returns (n: nat)
    requires s.begin <= s.i <= |str| && Advances(str, seps, s.i)
    ensures OverAfter(str, seps, limit, s, n)
    decreases |str| - s.i
  {
    if IsOver(str, limit, s) {
      n := 0;
    } else {
      n := AdvancingEnds(str, seps, limit, Turn(str, seps, s));
      n := n + 1;
    }
  }

  /** With an empty separator in the list something matches everywhere, so no piece is ever begun. */
  lemma {:induction false} StandsStill(str: string, seps: seq<string>, limit: nat, s: Scan, n: nat)
    requires s.begin == s.i <= |str| && s.result == [] && limit > 0 && !NoEmpty(seps) && !Advances(str, seps, s.i)
    ensures !OverAfter(str, seps, limit, s, n)
    decreases n
  {
    if n > 0 {
      var k :| 0 <= k < |seps| && seps[k] == [];
      MatchesSome(str, s.i, seps, k);
      StandsStill(str, seps, limit, Turn(str, seps, s), n - 1);
    }
  }

  /** The loop ends exactly when scanning never comes to a place where an empty separator counts; so it always
  ends when none is empty. */
  lemma LoopEnds(str: string, seps: seq<string>, limit: nat)
    requires limit > 0
    ensures (exists n :: OverAfter(str, seps, limit, Scan(0, 0, []), n)) <==> Advances(str, seps, 0)
    ensures NoEmpty(seps) ==> Advances(str, seps, 0)
  {
    if NoEmpty(seps) {
      NoEmptyAdvances(str, seps, 0);
    }
    if Advances(str, seps, 0) {
      var n := AdvancingEnds(str, seps, limit, Scan(0, 0, []));
    } else {
      forall n: nat
        ensures !OverAfter(str, seps, limit, Scan(0, 0, []), n)
      {
        StandsStill(str, seps, limit, Scan(0, 0, []), n);
      }
    }
  }

  /** And with an empty separator in the list, when it does end it has found nothing. */
  lemma {:induction false} EmptyFindsNothing(str: string, seps: seq<string>, i: nat)
    requires i <= |str| && !NoEmpty(seps) && Advances(str, seps, i)
    ensures Pieces(str, seps, i, i) == []
    decreases |str| - i
  {
    if i < |str| {
      var k :| 0 <= k < |seps| && seps[k] == [];
      MatchesSome(str, i, seps, k);
      EmptyFindsNothing(str, seps, i + MatchAt(str, i, seps).value);
    }
  }

  /** join. */
  function Joined(glue: string, toks: seq<string>): string {
    if toks == [] then [] else if |toks| == 1 then toks[0] else toks[0] + glue + Joined(glue, toks[1..])
  }

  function Glued(glue: string, toks: seq<string>): string {
    if toks == [] then [] else toks[0] + glue + Glued(glue, toks[1..])
  }

  /** One glue between any two tokens that follow each other. */
  lemma {:induction false} JoinedConcat(glue: string, a: seq<string>, b: seq<string>)
    requires a != [] && b != []
    ensures Joined(glue, a + b) == Joined(glue, a) + glue + Joined(glue, b)
    ensures |a| == 1 ==> Joined(glue, a) == a[0]
  {
    assert (a + b)[0] == a[0] && (a + b)[1..] == a[1..] + b;
    if |a| == 1 {
      assert a[1..] + b == b;
    } else {
      JoinedConcat(glue, a[1..], b);
    }
  }

  lemma {:induction false} GluedJoined(glue: string, toks: seq<string>)
    requires toks != []
    ensures Glued(glue, toks) == Joined(glue, toks) + glue
  {
    if |toks| > 1 {
      GluedJoined(glue, toks[1..]);
    }
  }

  method Join(glue: string, toks: seq<string>) returns (result: string)
    ensures result == Joined(glue, toks)
  {
    result := [];
    if toks == [] {
      return;
    }
    var k := 0;
    assert toks[0..] == toks && [] + Glued(glue, toks) == Glued(glue, toks);
    while k < |toks|
      invariant 0 <= k <= |toks| && Glued(glue, toks) == result + Glued(glue, toks[k..])
    {
      assert toks[k..][0] == toks[k] && toks[k..][1..] == toks[k + 1..];
      result := result + toks[k];
      result := result + glue;
      k := k + 1;
    }
    GluedJoined(glue, toks);
    assert result == Joined(glue, toks) + glue;
    result := result[..|result| - |glue|];
  }

  /** ---- How the splitters relate ---- */

  /** For a separator of one character, pieces and tokens are the same. */
  lemma {:induction false} PiecesAreTokens(str: string, c: char, begin: nat, i: nat)
    requires begin <= i <= |str|
    ensures Pieces(str, [[c]], begin, i) == Tokens(str[i..], c, str[begin..i])
    decreases |str| - i
  {
    if i == |str| {
      assert str[begin..] == str[begin..i];
    } else {
      assert str[i..][0] == str[i] && str[i..][1..] == str[i + 1..];
      assert MatchAt(str, i, [[c]]) == if str[i] == c then Some(1) else None by {
        assert str[i..i + 1] == [str[i]];
        assert [[c]][0] == [c];
      }
      if str[i] == c {
        PiecesAreTokens(str, c, i + 1, i + 1);
        assert str[i + 1..i + 1] == [];
      } else {
        PiecesAreTokens(str, c, begin, i + 1);
        assert str[begin..i] + [str[i]] == str[begin..i + 1];
      }
    }
  }

  /** All three agree on a separator of one character, for every limit. */
  lemma SplittersAgree(str: string, c: char, limit: nat)
    ensures Take(Pieces(str, [[c]], 0, 0), limit) == Take(Tokens(str, c, []), limit)
  {
    PiecesAreTokens(str, c, 0, 0);
    assert str[0..] == str && str[0..0] == [];
  }

  /** [a, b) is a run without separators that cannot be extended. */
  ghost predicate IsRun(str: string, c: char, a: nat, b: nat) {
    && a < b <= |str|
    && (forall k :: a <= k < b ==> !IsSep(str, c, k))
    && (a == 0 || IsSep(str, c, a - 1))
    && (b == |str| || IsSep(str, c, b))
  }

  predicate IsSep(str: string, c: char, k: int) {
    0 <= k < |str| && str[k] == c
  }

  /** Ends of the runs that end after i, the first of which has begun at `begin`. */
  ghost function Runs(str: string, c: char, begin: nat, i: nat): seq<(nat, nat)>
    requires begin <= i <= |str|
    decreases |str| - i
  {
    if i == |str| then (if begin < i then [(begin, i)] else [])
    else if str[i] != c then Runs(str, c, begin, i + 1)
    else if begin < i then [(begin, i)] + Runs(str, c, i + 1, i + 1)
    else Runs(str, c, i + 1, i + 1)
  }

  lemma {:induction false} TokensAreSlices(str: string, c: char, begin: nat, i: nat)
    requires begin <= i <= |str|
    ensures var runs, toks := Runs(str, c, begin, i), Tokens(str[i..], c, str[begin..i]);
            && |toks| == |runs|
            && forall k :: 0 <= k < |runs| ==> runs[k].0 <= runs[k].1 <= |str| && toks[k] == str[runs[k].0..runs[k].1]
    decreases |str| - i
  {
    if i == |str| {
      assert str[begin..] == str[begin..i];
    } else {
      assert str[i..][0] == str[i] && str[i..][1..] == str[i + 1..];
      if str[i] != c {
        assert str[begin..i] + [str[i]] == str[begin..i + 1];
        TokensAreSlices(str, c, begin, i + 1);
      } else {
        assert str[i + 1..i + 1] == [];
        TokensAreSlices(str, c, i + 1, i + 1);
      }
    }
  }

  lemma {:induction false} RunIsMaximal(str: string, c: char, begin: nat, i: nat, k: nat)
    requires begin <= i <= |str| && (begin == 0 || IsSep(str, c, begin - 1))
    requires forall j :: begin <= j < i ==> !IsSep(str, c, j)
    requires k < |Runs(str, c, begin, i)|
    ensures var runs := Runs(str, c, begin, i);
            IsRun(str, c, runs[k].0, runs[k].1) && begin <= runs[k].0 && (k > 0 ==> runs[k - 1].1 < runs[k].0)
    decreases |str| - i
  {
    if i < |str| && str[i] != c {
      RunIsMaximal(str, c, begin, i + 1, k);
    } else if i < |str| {
      if begin == i {
        RunIsMaximal(str, c, i + 1, i + 1, k);
      } else if k > 0 {
        RunIsMaximal(str, c, i + 1, i + 1, k - 1);
      }
    }
  }

  lemma {:induction false} EveryRunIsThere(str: string, c: char, begin: nat, i: nat, a: nat, b: nat)
    requires begin <= i <= |str| && (forall k :: begin <= k < i ==> !IsSep(str, c, k))
    requires IsRun(str, c, a, b) && begin <= a
    ensures (a, b) in Runs(str, c, begin, i)
    decreases |str| - i
  {
    if i < |str| && str[i] != c {
      EveryRunIsThere(str, c, begin, i + 1, a, b);
    } else if i < |str| && a > i {
      EveryRunIsThere(str, c, i + 1, i + 1, a, b);
    } else {
      assert begin <= a - 1 < i ==> !IsSep(str, c, a - 1);
      assert begin <= b < i ==> !IsSep(str, c, b);
      assert i < |str| ==> IsSep(str, c, i);
    }
  }

  /** The tokens of a string are its maximal runs without the separator: all of them, nothing else, and
  in order. */
  lemma TokensAreRuns(str: string, c: char)
    ensures var runs, toks := Runs(str, c, 0, 0), Tokens(str, c, []);
            && |toks| == |runs|
            && (forall k :: 0 <= k < |runs| ==>
                  IsRun(str, c, runs[k].0, runs[k].1) && toks[k] == str[runs[k].0..runs[k].1])
            && (forall k :: 0 < k < |runs| ==> runs[k - 1].1 < runs[k].0)
            && (forall a: nat, b: nat :: IsRun(str, c, a, b) ==> (a, b) in runs)
  {
    var runs, toks := Runs(str, c, 0, 0), Tokens(str, c, []);
    TokensAreSlices(str, c, 0, 0);
    assert str[0..] == str && str[0..0] == [];
    forall k | 0 <= k < |runs|
      ensures IsRun(str, c, runs[k].0, runs[k].1) && toks[k] == str[runs[k].0..runs[k].1]
      ensures k > 0 ==> runs[k - 1].1 < runs[k].0
    {
      RunIsMaximal(str, c, 0, 0, k);
    }
    forall a: nat, b: nat | IsRun(str, c, a, b)
      ensures (a, b) in Runs(str, c, 0, 0)
    {
      EveryRunIsThere(str, c, 0, 0, a, b);
    }
  }

  /** ---- Splitting undoes joining ---- */

  predicate Clean(tok: string, c: char) {
    tok != [] && forall k :: 0 <= k < |tok| ==> tok[k] != c
  }

  lemma {:induction false} TokenFirst(tok: string, rest: string, c: char, cur: string)
    requires forall k :: 0 <= k < |tok| ==> tok[k] != c
    ensures Tokens(tok + rest, c, cur) == Tokens(rest, c, cur + tok)
  {
    if tok == [] {
      assert tok + rest == rest && cur + tok == cur;
    } else {
      assert (tok + rest)[1..] == tok[1..] + rest;
      TokenFirst(tok[1..], rest, c, cur + [tok[0]]);
      assert cur + [tok[0]] + tok[1..] == cur + tok;
    }
  }

  lemma {:induction false} SplitJoin(toks: seq<string>, c: char)
    requires forall k :: 0 <= k < |toks| ==> Clean(toks[k], c)
    ensures Tokens(Joined([c], toks), c, []) == toks
  {
    if |toks| == 1 {
      assert toks[0] + [] == toks[0];
      TokenFirst(toks[0], [], c, []);
      assert [] + toks[0] == toks[0];
    } else if |toks| > 1 {
      var rest := [c] + Joined([c], toks[1..]);
      assert Joined([c], toks) == toks[0] + rest;
      TokenFirst(toks[0], rest, c, []);
      assert [] + toks[0] == toks[0];
      assert rest[0] == c && rest[1..] == Joined([c], toks[1..]);
      SplitJoin(toks[1..], c);
    }
  }
}

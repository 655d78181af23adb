// checknames() of chdir01: one counter over a directory stream and a list of
// names stands in for "every listed name is in the directory".
module DirectoryCheck {

  // A directory stream: the entries still to come, in the order readdir gives them.
  class DirStream {
    var rest: seq<string>

    constructor (entries: seq<string>)
      ensures rest == entries
    {
      rest := entries;
    }

    // The next entry, or more == false at the end of the stream.
    method ReadDir() returns (more: bool, entry: string)
      modifies this
      ensures more <==> old(rest) != []
      ensures more ==> entry == old(rest)[0] && rest == old(rest)[1..]
      ensures !more ==> rest == []
    {
      if rest == [] {
        return false, "";
      }
      more, entry := true, rest[0];
      rest := rest[1..];
    }
  }

  // How often x occurs in s.
  function Count(x: string, s: seq<string>): nat {
    if s == [] then 0 else (if s[0] == x then 1 else 0) + Count(x, s[1..])
  }

  // The matches counted entry by entry, as the loop does.
  function ByEntry(names: seq<string>, stream: seq<string>): nat {
    if stream == [] then 0 else Count(stream[0], names) + ByEntry(names, stream[1..])
  }

  // The matches counted name by name: how often each listed name is in the stream.
  function BySlot(names: seq<string>, stream: seq<string>): nat {
    if names == [] then 0 else multiset(stream)[names[0]] + BySlot(names[1..], stream)
  }

  function Repeat(x: string, n: nat): (r: seq<string>)
    ensures |r| == n && forall i :: 0 <= i < n ==> r[i] == x
  {
    seq(n, _ => x)
  }

  // The lines "Found file %s", in order.
  function FoundLines(names: seq<string>, stream: seq<string>): seq<string> {
    if stream == [] then []
    else Repeat(stream[0], Count(stream[0], names)) + FoundLines(names, stream[1..])
  }

  // The inner loop: one entry against the whole list.
  method MatchEntry(names: seq<string>, entry: string, found0: nat, info0: seq<string>)
    returns (found: nat, info: seq<string>)
    ensures found == found0 + Count(entry, names)
    ensures info == info0 + Repeat(entry, Count(entry, names))
  {
    hide Count, Repeat;
    CountEnds(entry, names);
    found, info := found0, info0;
    var i := 0;
    while i < |names|
      invariant 0 <= i <= |names|
      invariant found0 <= found
      invariant found + Count(entry, names[i..]) == found0 + Count(entry, names)
      invariant info == info0 + Repeat(entry, found - found0)
    {
      CountStep(entry, names, i);
      if names[i] == entry {
        RepeatStep(entry, found - found0);
        info := info + [entry];
        found := found + 1;
      }
      i := i + 1;
    }
  }

  method CheckNames(names: seq<string>, ddir: DirStream) returns (found: nat, failed: bool, info: seq<string>)
    modifies ddir
    ensures ddir.rest == []
    ensures found == BySlot(names, old(ddir.rest))
    ensures failed <==> found < |names|
    ensures info == FoundLines(names, old(ddir.rest)) && |info| == found
  {
    assert ByEntry(names, []) == 0 && FoundLines(names, []) == [];
    hide ByEntry, FoundLines, BySlot, Count, Repeat;
    found, info := 0, [];
    ghost var stream := ddir.rest;
    var more, entry := ddir.ReadDir();
    while more
      invariant stream == if more then [entry] + ddir.rest else []
      invariant !more ==> ddir.rest == []
      invariant found + ByEntry(names, stream) == ByEntry(names, old(ddir.rest))
      invariant info + FoundLines(names, stream) == FoundLines(names, old(ddir.rest))
      invariant |info| == found
      decreases |stream|
    {
      ReadOne(names, entry, ddir.rest, info);
      found, info := MatchEntry(names, entry, found, info);
      stream := ddir.rest;
      more, entry := ddir.ReadDir();
      assert more ==> stream == [entry] + ddir.rest;
    }
    DoubleCounting(names, old(ddir.rest));
    failed := found < |names|;
  }

  lemma CountEnds(x: string, s: seq<string>)
    ensures Count(x, s[0..]) == Count(x, s) && Count(x, s[|s|..]) == 0
    ensures Repeat(x, 0) == []
  {
    assert s[0..] == s;
  }

  lemma CountStep(x: string, s: seq<string>, i: nat)
    requires i < |s|
    ensures Count(x, s[i..]) == (if s[i] == x then 1 else 0) + Count(x, s[i + 1..])
  {
    assert s[i..][1..] == s[i + 1..];
  }

  lemma RepeatStep(x: string, n: nat)
    ensures Repeat(x, n + 1) == Repeat(x, n) + [x]
  {
  }

  lemma ReadOne(names: seq<string>, entry: string, rest: seq<string>, info: seq<string>)
    ensures ByEntry(names, [entry] + rest) == Count(entry, names) + ByEntry(names, rest)
    ensures info + FoundLines(names, [entry] + rest)
         == info + Repeat(entry, Count(entry, names)) + FoundLines(names, rest)
  {
    assert ([entry] + rest)[1..] == rest;
  }

  // ---------------------------------------------------------- double counting

  lemma {:induction false} AddEntry(names: seq<string>, entry: string, stream: seq<string>)
    ensures BySlot(names, [entry] + stream) == Count(entry, names) + BySlot(names, stream)
  {
    if names != [] {
      AddEntry(names[1..], entry, stream);
      assert multiset([entry] + stream) == multiset{entry} + multiset(stream);
    }
  }

  lemma {:induction false} NothingInEmptyStream(names: seq<string>)
    ensures BySlot(names, []) == 0
  {
    if names != [] {
      NothingInEmptyStream(names[1..]);
    }
  }

  // Counting by entry and counting by listed name give the same number.
  lemma {:induction false} DoubleCounting(names: seq<string>, stream: seq<string>)
    ensures ByEntry(names, stream) == BySlot(names, stream)
  {
    if stream == [] {
      NothingInEmptyStream(names);
    } else {
      DoubleCounting(names, stream[1..]);
      AddEntry(names, stream[0], stream[1..]);
      assert [stream[0]] + stream[1..] == stream;
    }
  }

  lemma {:induction false} CountIsMultiplicity(x: string, s: seq<string>)
    ensures Count(x, s) == multiset(s)[x]
  {
    if s != [] {
      CountIsMultiplicity(x, s[1..]);
      assert s == [s[0]] + s[1..];
    }
  }

  // The found lines follow the stream: one entry gives its name as often as it
  // is listed, and the lines of a stream are those of its parts, in order.
  lemma {:induction false} LinesFollowStream(names: seq<string>, entry: string, a: seq<string>, b: seq<string>)
    ensures |FoundLines(names, [entry])| == multiset(names)[entry]
    ensures forall i :: 0 <= i < multiset(names)[entry] ==> FoundLines(names, [entry])[i] == entry
    ensures FoundLines(names, a + b) == FoundLines(names, a) + FoundLines(names, b)
  {
    CountIsMultiplicity(entry, names);
    assert FoundLines(names, [entry]) == Repeat(entry, Count(entry, names)) + FoundLines(names, []);
    if a == [] {
      assert a + b == b;
    } else {
      assert (a + b)[1..] == a[1..] + b;
      LinesFollowStream(names, entry, a[1..], b);
    }
  }

  // The order in which the directory lists its entries does not matter.
  lemma {:induction false} OrderIrrelevant(names: seq<string>, s: seq<string>, t: seq<string>)
    requires multiset(s) == multiset(t)
    ensures ByEntry(names, s) == ByEntry(names, t)
  {
    DoubleCounting(names, s);
    DoubleCounting(names, t);
    SlotsSeeMultiset(names, s, t);
  }

  lemma {:induction false} SlotsSeeMultiset(names: seq<string>, s: seq<string>, t: seq<string>)
    requires multiset(s) == multiset(t)
    ensures BySlot(names, s) == BySlot(names, t)
  {
    if names != [] {
      SlotsSeeMultiset(names[1..], s, t);
    }
  }

  // ------------------------------------------------------------------ verdict

  // The listed names the stream does not hold, counted with repetition.
  function Missing(names: seq<string>, stream: seq<string>): nat {
    if names == [] then 0
    else (if names[0] in stream then 0 else 1) + Missing(names[1..], stream)
  }

  // The occurrences of listed names beyond the first, summed over the list.
  function Surplus(names: seq<string>, stream: seq<string>): nat {
    if names == [] then 0
    else
      (if names[0] in stream then multiset(stream)[names[0]] - 1 else 0) + Surplus(names[1..], stream)
  }

  lemma {:induction false} FoundBalance(names: seq<string>, stream: seq<string>)
    ensures ByEntry(names, stream) + Missing(names, stream) == |names| + Surplus(names, stream)
  {
    DoubleCounting(names, stream);
    SlotBalance(names, stream);
  }

  lemma {:induction false} SlotBalance(names: seq<string>, stream: seq<string>)
    ensures BySlot(names, stream) + Missing(names, stream) == |names| + Surplus(names, stream)
  {
    if names != [] {
      SlotBalance(names[1..], stream);
    }
  }

  predicate AllPresent(names: seq<string>, stream: seq<string>) {
    forall i :: 0 <= i < |names| ==> names[i] in stream
  }

  predicate NoRepeats(stream: seq<string>) {
    forall i, j :: 0 <= i < j < |stream| ==> stream[i] != stream[j]
  }

  predicate Fails(names: seq<string>, stream: seq<string>) {
    ByEntry(names, stream) < |names|
  }

  lemma {:induction false} MissingIff(names: seq<string>, stream: seq<string>)
    ensures Missing(names, stream) == 0 <==> AllPresent(names, stream)
  {
    if names != [] {
      MissingIff(names[1..], stream);
      if AllPresent(names[1..], stream) && names[0] in stream {
        forall i | 0 <= i < |names|
          ensures names[i] in stream
        {
          assert i > 0 ==> names[i] == names[1..][i - 1];
        }
      }
    }
  }

  lemma {:induction false} OncePerName(stream: seq<string>, x: string)
    requires NoRepeats(stream)
    ensures multiset(stream)[x] <= 1
  {
    if stream != [] {
      assert stream == [stream[0]] + stream[1..];
      OncePerName(stream[1..], x);
      forall j | 0 <= j < |stream[1..]|
        ensures stream[1..][j] != stream[0]
      {
        assert stream[1..][j] == stream[j + 1];
      }
    }
  }

  lemma {:induction false} NoSurplus(names: seq<string>, stream: seq<string>)
    requires NoRepeats(stream)
    ensures Surplus(names, stream) == 0
  {
    if names != [] {
      OncePerName(stream, names[0]);
      NoSurplus(names[1..], stream);
    }
  }

  // For every stream and list: the check fails exactly when the missing names
  // outnumber the surplus occurrences that can hide them.
  lemma FailsIff(names: seq<string>, stream: seq<string>)
    ensures Fails(names, stream) <==> Missing(names, stream) > Surplus(names, stream)
  {
    FoundBalance(names, stream);
  }

  // A failure is never false: it means that some listed name is absent.
  lemma FailureIsReal(names: seq<string>, stream: seq<string>)
    requires Fails(names, stream)
    ensures exists i :: 0 <= i < |names| && names[i] !in stream
  {
    FoundBalance(names, stream);
    MissingIff(names, stream);
  }

  // On a directory without repeated entries, failing means exactly that some
  // listed name is absent, even if the list itself repeats names.
  lemma VerdictOnDirectories(names: seq<string>, stream: seq<string>)
    requires NoRepeats(stream)
    ensures Fails(names, stream) <==> !AllPresent(names, stream)
  {
    FoundBalance(names, stream);
    MissingIff(names, stream);
    NoSurplus(names, stream);
  }

  // A name longer than every entry of the stream.
  function FreshName(stream: seq<string>): (name: string)
    ensures forall i :: 0 <= i < |stream| ==> |stream[i]| < |name|
  {
    if stream == [] then "x" else stream[0] + FreshName(stream[1..])
  }

  lemma RepeatedEntryCountsTwice(stream: seq<string>, i: nat, j: nat)
    requires i < j < |stream| && stream[i] == stream[j]
    ensures multiset(stream)[stream[i]] >= 2
  {
    assert stream == stream[..j] + stream[j..];
    assert stream[..j][i] == stream[i] && stream[j..][0] == stream[i];
    assert multiset(stream) == multiset(stream[..j]) + multiset(stream[j..]);
  }

  // A repeated entry hides the absence of a name listed beside it.
  lemma RepeatHidesFreshName(stream: seq<string>, i: nat, j: nat)
    requires i < j < |stream| && stream[i] == stream[j]
    ensures var names := [stream[i], FreshName(stream)];
            !Fails(names, stream) && !AllPresent(names, stream)
  {
    var names := [stream[i], FreshName(stream)];
    RepeatedEntryCountsTwice(stream, i, j);
    assert names[1..] == [names[1]] && names[1..][1..] == [];
    DoubleCounting(names, stream);
    assert BySlot(names, stream) >= 2;
    assert names[1] !in stream;
  }

  // The verdict is right for every list of names exactly on the streams that
  // repeat no entry.
  lemma VerdictRightIff(stream: seq<string>)
    ensures (forall names: seq<string> :: Fails(names, stream) <==> !AllPresent(names, stream))
       <==> NoRepeats(stream)
  {
    if NoRepeats(stream) {
      forall names: seq<string>
        ensures Fails(names, stream) <==> !AllPresent(names, stream)
      {
        VerdictOnDirectories(names, stream);
      }
    } else {
      var i, j :| 0 <= i < j < |stream| && stream[i] == stream[j];
      RepeatHidesFreshName(stream, i, j);
    }
  }

  // With a repeated entry the counter can hide an absent name.
  lemma RepeatsCanHideAbsence()
    ensures !Fails(["a", "b"], ["a", "a"]) && !AllPresent(["a", "b"], ["a", "a"])
  {
  }
}

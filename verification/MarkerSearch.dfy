/** Streaming multi-pattern search with a bounded overlap (check_nmap_distribution_absence.py). */
module MarkerSearch {
  import opened Wrappers
  import opened Bytes

  /** The encoded forms of each marker, in marker order. */
  type Forms = seq<seq<bytes>>

  const MARKERS := [
    "https://nmap.org/dist/",
    "https://nmap.org/download",
    "choco install nmap",
    "winget install",
    "-verb runas",
    "shellexecuteexw"]

  function Utf16le(s: string): (b: bytes)
    ensures |b| == 2 * |s|
  {
    seq(2 * |s|, i requires 0 <= i < 2 * |s| => if i % 2 == 0 then s[i / 2] as int % 128 else 0)
  }

  function FormsOf(markers: seq<string>): (forms: Forms)
    ensures |forms| == |markers|
    ensures forall m :: 0 <= m < |markers| ==> forms[m] == [AsciiBytes(markers[m]), Utf16le(markers[m])]
  {
    seq(|markers|, m requires 0 <= m < |markers| => [AsciiBytes(markers[m]), Utf16le(markers[m])])
  }

  /** `bytes.lower()` maps ASCII capitals only. */
  function Lower(b: bytes): (r: bytes)
    ensures |r| == |b|
  {
    seq(|b|, i requires 0 <= i < |b| => if 65 <= b[i] <= 90 then b[i] + 32 else b[i])
  }

  predicate OccursAt(pattern: bytes, text: bytes, i: int) {
    0 <= i && i + |pattern| <= |text| && text[i..i + |pattern|] == pattern
  }

  /** Python's `pattern in text`. */
  predicate Occurs(pattern: bytes, text: bytes) {
    exists i :: 0 <= i <= |text| && OccursAt(pattern, text, i)
  }

  predicate SomeFormOccurs(encoded: seq<bytes>, text: bytes) {
    exists f :: 0 <= f < |encoded| && Occurs(encoded[f], text)
  }

  /** The longest encoded form, less one byte. */
  ghost predicate IsOverlap(forms: Forms, overlap: nat) {
    && (forall m, f :: 0 <= m < |forms| && 0 <= f < |forms[m]| ==> |forms[m][f]| <= overlap + 1)
    && (exists m, f :: 0 <= m < |forms| && 0 <= f < |forms[m]| && |forms[m][f]| == overlap + 1)
  }

  const OVERLAP := 49

  /** `text[-count:]`, which keeps everything when `count` is zero. */
  function Tail(text: bytes, count: nat): bytes {
    if count == 0 || |text| <= count then text else text[|text| - count..]
  }

  function FirstMatch(forms: Forms, text: bytes, m: nat): (r: Option<nat>)
    requires m <= |forms|
    ensures r.Some? ==> m <= r.value < |forms| && SomeFormOccurs(forms[r.value], text)
    ensures r.Some? ==> forall k :: m <= k < r.value ==> !SomeFormOccurs(forms[k], text)
    ensures r.None? ==> forall k :: m <= k < |forms| ==> !SomeFormOccurs(forms[k], text)
    decreases |forms| - m
  {
    if m == |forms| then None
    else if SomeFormOccurs(forms[m], text) then Some(m)
    else FirstMatch(forms, text, m + 1)
  }

  function Search(forms: Forms, overlap: nat, previous: bytes, chunks: seq<bytes>): Option<nat>
    decreases |chunks|
  {
    if chunks == [] then None
    else
      var lowered := previous + Lower(chunks[0]);
      var found := FirstMatch(forms, lowered, 0);
      if found.Some? then found else Search(forms, overlap, Tail(lowered, overlap), chunks[1..])
  }

  function Flatten(chunks: seq<bytes>): bytes {
    if chunks == [] then [] else chunks[0] + Flatten(chunks[1..])
  }

  /** `_matching_marker` */
  method MatchingMarker(forms: Forms, overlap: nat, chunks: seq<bytes>) returns (r: Option<nat>)
    ensures r == Search(forms, overlap, [], chunks)
  {
    var previous: bytes := [];
    for i := 0 to |chunks|
      invariant Search(forms, overlap, [], chunks) == Search(forms, overlap, previous, chunks[i..])
    {
      var lowered := previous + Lower(chunks[i]);
      assert chunks[i..][1..] == chunks[i + 1..];
      for m := 0 to |forms|
        invariant FirstMatch(forms, lowered, 0) == FirstMatch(forms, lowered, m)
      {
        if SomeFormOccurs(forms[m], lowered) {
          return Some(m);
        }
      }
      previous := Tail(lowered, overlap);
    }
    r := None;
  }

  // ---- The bounded window misses nothing ----

  ghost predicate NoneOccurs(forms: Forms, text: bytes) {
    forall m :: 0 <= m < |forms| ==> !SomeFormOccurs(forms[m], text)
  }

  lemma TailOfTail(seen: bytes, chunk: bytes, overlap: nat)
    ensures Tail(Tail(seen, overlap) + chunk, overlap) == Tail(seen + chunk, overlap)
  {
  }

  lemma WindowSound(pattern: bytes, seen: bytes, chunk: bytes, overlap: nat)
    requires Occurs(pattern, Tail(seen, overlap) + chunk)
    ensures Occurs(pattern, seen + chunk)
  {
    var window := Tail(seen, overlap) + chunk;
    var i :| 0 <= i <= |window| && OccursAt(pattern, window, i);
    var shift := |seen| - |Tail(seen, overlap)|;
    assert (seen + chunk)[shift..] == window;
    assert (seen + chunk)[shift + i..shift + i + |pattern|] == window[i..i + |pattern|];
    assert OccursAt(pattern, seen + chunk, shift + i);
  }

  lemma WindowComplete(pattern: bytes, seen: bytes, chunk: bytes, overlap: nat)
    requires |pattern| <= overlap + 1 && pattern != []
    requires Occurs(pattern, seen + chunk) && !Occurs(pattern, seen)
    ensures Occurs(pattern, Tail(seen, overlap) + chunk)
  {
    var i :| 0 <= i <= |seen + chunk| && OccursAt(pattern, seen + chunk, i);
    if i + |pattern| <= |seen| {
      assert OccursAt(pattern, seen, i);
    }
    var shift := |seen| - |Tail(seen, overlap)|;
    assert (seen + chunk)[shift..] == Tail(seen, overlap) + chunk;
    OccursInSuffix(pattern, seen + chunk, i, shift);
  }

  lemma OccursInSuffix(pattern: bytes, text: bytes, i: nat, shift: nat)
    requires OccursAt(pattern, text, i) && shift <= i
    ensures Occurs(pattern, text[shift..])
  {
    assert text[shift..][i - shift..i - shift + |pattern|] == text[i..i + |pattern|];
    assert OccursAt(pattern, text[shift..], i - shift);
  }

  lemma WindowExact(forms: Forms, m: nat, seen: bytes, chunk: bytes, overlap: nat)
    requires IsOverlap(forms, overlap) && m < |forms| && (forall f :: 0 <= f < |forms[m]| ==> forms[m][f] != [])
    requires !SomeFormOccurs(forms[m], seen)
    ensures SomeFormOccurs(forms[m], Tail(seen, overlap) + chunk) <==> SomeFormOccurs(forms[m], seen + chunk)
  {
    forall f | 0 <= f < |forms[m]|
      ensures Occurs(forms[m][f], Tail(seen, overlap) + chunk) <==> Occurs(forms[m][f], seen + chunk)
    {
      if Occurs(forms[m][f], Tail(seen, overlap) + chunk) {
        WindowSound(forms[m][f], seen, chunk, overlap);
      } else if Occurs(forms[m][f], seen + chunk) {
        WindowComplete(forms[m][f], seen, chunk, overlap);
      }
    }
  }

  ghost predicate NonemptyForms(forms: Forms) {
    forall m, f :: 0 <= m < |forms| && 0 <= f < |forms[m]| ==> forms[m][f] != []
  }

  lemma OccursExtends(pattern: bytes, text: bytes, more: bytes)
    requires Occurs(pattern, text)
    ensures Occurs(pattern, text + more)
  {
    var i :| 0 <= i <= |text| && OccursAt(pattern, text, i);
    assert (text + more)[i..i + |pattern|] == text[i..i + |pattern|];
    assert OccursAt(pattern, text + more, i);
  }

  lemma {:induction false} SearchFrom(forms: Forms, overlap: nat, seen: bytes, chunks: seq<bytes>)
    requires IsOverlap(forms, overlap) && NonemptyForms(forms) && NoneOccurs(forms, seen)
    ensures var text := seen + Lower(Flatten(chunks));
      var found := Search(forms, overlap, Tail(seen, overlap), chunks);
      && (found.Some? <==> !NoneOccurs(forms, text))
      && (found.Some? ==> found.value < |forms| && SomeFormOccurs(forms[found.value], text))
    decreases |chunks|
  {
    if chunks == [] {
      assert seen + Lower(Flatten(chunks)) == seen;
    } else {
      var chunk, rest := Lower(chunks[0]), Lower(Flatten(chunks[1..]));
      assert seen + Lower(Flatten(chunks)) == (seen + chunk) + rest;
      var found := FirstMatch(forms, Tail(seen, overlap) + chunk, 0);
      forall m | 0 <= m < |forms|
        ensures SomeFormOccurs(forms[m], Tail(seen, overlap) + chunk) <==> SomeFormOccurs(forms[m], seen + chunk)
      {
        WindowExact(forms, m, seen, chunk, overlap);
      }
      if found.Some? {
        var f :| 0 <= f < |forms[found.value]| && Occurs(forms[found.value][f], seen + chunk);
        OccursExtends(forms[found.value][f], seen + chunk, rest);
      } else {
        TailOfTail(seen, chunk, overlap);
        SearchFrom(forms, overlap, seen + chunk, chunks[1..]);
      }
    }
  }

  /** Some marker is returned exactly when a form occurs in the whole lower-cased text, and it really occurs. */
  lemma SearchEqualsWholeText(forms: Forms, overlap: nat, chunks: seq<bytes>)
    requires IsOverlap(forms, overlap) && NonemptyForms(forms)
    ensures var text, found := Lower(Flatten(chunks)), Search(forms, overlap, [], chunks);
      && (found.Some? <==> exists m :: 0 <= m < |forms| && SomeFormOccurs(forms[m], text))
      && (found.Some? ==> found.value < |forms| && SomeFormOccurs(forms[found.value], text))
  {
    assert [] + Lower(Flatten(chunks)) == Lower(Flatten(chunks));
    SearchFrom(forms, overlap, [], chunks);
  }

  /** So the verdict, though not the marker named, is the same for every way of cutting the text. */
  lemma VerdictIgnoresChunking(forms: Forms, overlap: nat, a: seq<bytes>, b: seq<bytes>)
    requires IsOverlap(forms, overlap) && NonemptyForms(forms) && Flatten(a) == Flatten(b)
    ensures Search(forms, overlap, [], a).Some? <==> Search(forms, overlap, [], b).Some?
  {
    SearchEqualsWholeText(forms, overlap, a);
    SearchEqualsWholeText(forms, overlap, b);
  }

  // ---- Which marker is named ----

  /** Texts in which the same markers occur name the same first marker. */
  lemma FirstMatchSame(forms: Forms, a: bytes, b: bytes)
    requires forall m :: 0 <= m < |forms| ==> (SomeFormOccurs(forms[m], a) <==> SomeFormOccurs(forms[m], b))
    ensures FirstMatch(forms, a, 0) == FirstMatch(forms, b, 0)
  {
    var x, y := FirstMatch(forms, a, 0), FirstMatch(forms, b, 0);
    if x.Some? {
      assert SomeFormOccurs(forms[x.value], b);
    }
    if y.Some? {
      assert SomeFormOccurs(forms[y.value], a);
    }
  }

  /** More text can only bring forward the marker that is named. */
  lemma FirstMatchExtends(forms: Forms, text: bytes, more: bytes)
    requires FirstMatch(forms, text, 0).Some?
    ensures FirstMatch(forms, text + more, 0).Some?
    ensures FirstMatch(forms, text + more, 0).value <= FirstMatch(forms, text, 0).value
  {
    var m := FirstMatch(forms, text, 0).value;
    var f :| 0 <= f < |forms[m]| && Occurs(forms[m][f], text);
    OccursExtends(forms[m][f], text, more);
    assert SomeFormOccurs(forms[m], text + more);
  }

  lemma NoneIsNoMatch(forms: Forms, text: bytes)
    ensures NoneOccurs(forms, text) <==> FirstMatch(forms, text, 0).None?
  {
  }

  /** The search names what the whole prefix up to some chunk end names, the first such prefix with a match. */
  lemma {:induction false} SearchNamesPrefix(forms: Forms, overlap: nat, seen: bytes, chunks: seq<bytes>)
    returns (end: nat)
    requires IsOverlap(forms, overlap) && NonemptyForms(forms) && NoneOccurs(forms, seen)
    ensures var text := seen + Lower(Flatten(chunks));
      && end <= |text|
      && Search(forms, overlap, Tail(seen, overlap), chunks) == FirstMatch(forms, text[..end], 0)
      && (FirstMatch(forms, text[..end], 0).None? ==> end == |text|)
    decreases |chunks|
  {
    var text := seen + Lower(Flatten(chunks));
    NoneIsNoMatch(forms, seen);
    if chunks == [] {
      end := |text|;
      assert text[..end] == seen;
    } else {
      var chunk, rest := Lower(chunks[0]), Lower(Flatten(chunks[1..]));
      assert text == (seen + chunk) + rest;
      forall m | 0 <= m < |forms|
        ensures SomeFormOccurs(forms[m], Tail(seen, overlap) + chunk) <==> SomeFormOccurs(forms[m], seen + chunk)
      {
        WindowExact(forms, m, seen, chunk, overlap);
      }
      FirstMatchSame(forms, Tail(seen, overlap) + chunk, seen + chunk);
      NoneIsNoMatch(forms, seen + chunk);
      if FirstMatch(forms, seen + chunk, 0).Some? {
        end := |seen + chunk|;
        assert text[..end] == seen + chunk;
      } else {
        TailOfTail(seen, chunk, overlap);
        end := SearchNamesPrefix(forms, overlap, seen + chunk, chunks[1..]);
      }
    }
  }

  /** The length of the shortest prefix, from length `n` on, in which some form occurs; the whole length if none. */
  ghost function FirstHit(forms: Forms, text: bytes, n: nat): (hit: nat)
    requires n <= |text|
    ensures n <= hit <= |text|
    ensures hit < |text| ==> FirstMatch(forms, text[..hit], 0).Some?
    ensures forall k :: n <= k < hit ==> FirstMatch(forms, text[..k], 0).None?
    decreases |text| - n
  {
    if n == |text| || FirstMatch(forms, text[..n], 0).Some? then n else FirstHit(forms, text, n + 1)
  }

  /** What a chunk end names lies between what the shortest matching prefix and what the whole text name. */
  lemma NamedInBetween(forms: Forms, text: bytes, end: nat)
    requires end <= |text| && FirstMatch(forms, text[..end], 0).Some?
    ensures var hit := FirstHit(forms, text, 0);
      && hit <= end && FirstMatch(forms, text[..hit], 0).Some? && FirstMatch(forms, text, 0).Some?
      && FirstMatch(forms, text, 0).value <= FirstMatch(forms, text[..end], 0).value
                                          <= FirstMatch(forms, text[..hit], 0).value
  {
    var hit := FirstHit(forms, text, 0);
    assert text == text[..end] + text[end..];
    FirstMatchExtends(forms, text[..end], text[end..]);
    assert text[..end] == text[..hit] + text[hit..end];
    assert hit == |text| ==> text[..hit] == text[..end];
    FirstMatchExtends(forms, text[..hit], text[hit..end]);
  }

  /** Read off the text alone: the shortest matching prefix names what the whole text names. */
  ghost predicate NameIsSettled(forms: Forms, text: bytes) {
    FirstMatch(forms, text[..FirstHit(forms, text, 0)], 0) == FirstMatch(forms, text, 0)
  }

  lemma NamedWhenSettled(forms: Forms, overlap: nat, chunks: seq<bytes>)
    requires IsOverlap(forms, overlap) && NonemptyForms(forms) && NameIsSettled(forms, Lower(Flatten(chunks)))
    ensures Search(forms, overlap, [], chunks) == FirstMatch(forms, Lower(Flatten(chunks)), 0)
  {
    var text := Lower(Flatten(chunks));
    NothingOccursInNothing(forms);
    assert [] + text == text;
    var end := SearchNamesPrefix(forms, overlap, [], chunks);
    NamedAtEnd(forms, text, end);
  }

  lemma NamedAtEnd(forms: Forms, text: bytes, end: nat)
    requires end <= |text| && NameIsSettled(forms, text) && (FirstMatch(forms, text[..end], 0).None? ==> end == |text|)
    ensures FirstMatch(forms, text[..end], 0) == FirstMatch(forms, text, 0)
  {
    if FirstMatch(forms, text[..end], 0).Some? {
      NamedInBetween(forms, text, end);
    } else {
      assert text[..end] == text;
    }
  }

  lemma NothingOccursInNothing(forms: Forms)
    requires NonemptyForms(forms)
    ensures NoneOccurs(forms, [])
  {
  }

  /** The two chunkings that tell the difference: uncut, and cut after the shortest matching prefix. */
  lemma CutAtFirstHit(forms: Forms, overlap: nat, text: bytes)
    requires IsOverlap(forms, overlap) && NonemptyForms(forms) && FirstMatch(forms, Lower(text), 0).Some?
    ensures var hit := FirstHit(forms, Lower(text), 0);
      && Flatten([text]) == text == Flatten([text[..hit], text[hit..]])
      && Search(forms, overlap, [], [text]) == FirstMatch(forms, Lower(text), 0)
      && Search(forms, overlap, [], [text[..hit], text[hit..]]) == FirstMatch(forms, Lower(text)[..hit], 0)
  {
    assert Lower(text)[..|text|] == Lower(text);
    NamedInBetween(forms, Lower(text), |text|);
    var hit := FirstHit(forms, Lower(text), 0);
    assert Lower(text[..hit]) == Lower(text)[..hit];
    assert text[..hit] + text[hit..] == text;
    OneOrTwoChunks(forms, overlap, text[..hit], text[hit..]);
  }

  /** Every way of cutting the text names the same marker. */
  ghost predicate NamesOneMarker(forms: Forms, overlap: nat, text: bytes) {
    forall a, b :: Flatten(a) == text && Flatten(b) == text
      ==> Search(forms, overlap, [], a) == Search(forms, overlap, [], b)
  }

  /** The marker named does not depend on the cut exactly when the shortest matching prefix already names it. */
  lemma NameIgnoresChunking(forms: Forms, overlap: nat, text: bytes)
    requires IsOverlap(forms, overlap) && NonemptyForms(forms)
    ensures NamesOneMarker(forms, overlap, text) <==> NameIsSettled(forms, Lower(text))
  {
    if NameIsSettled(forms, Lower(text)) {
      forall a, b | Flatten(a) == text && Flatten(b) == text
        ensures Search(forms, overlap, [], a) == Search(forms, overlap, [], b)
      {
        NamedWhenSettled(forms, overlap, a);
        NamedWhenSettled(forms, overlap, b);
      }
    }
    if NamesOneMarker(forms, overlap, text) {
      if FirstMatch(forms, Lower(text), 0).Some? {
        CutAtFirstHit(forms, overlap, text);
      } else {
        NothingFoundIsSettled(forms, Lower(text));
      }
    }
  }

  lemma NothingFoundIsSettled(forms: Forms, text: bytes)
    requires FirstMatch(forms, text, 0).None?
    ensures NameIsSettled(forms, text)
  {
    var hit := FirstHit(forms, text, 0);
    assert text == text[..hit] + text[hit..];
    if FirstMatch(forms, text[..hit], 0).Some? {
      FirstMatchExtends(forms, text[..hit], text[hit..]);
    }
  }

  // ---- The shipped markers ----

  /** 49 is the overlap of the shipped forms: the longest is a 25-character URL in UTF-16. */
  lemma ShippedOverlap()
    ensures IsOverlap(FormsOf(MARKERS), OVERLAP) && NonemptyForms(FormsOf(MARKERS))
  {
    var forms := FormsOf(MARKERS);
    assert |MARKERS[0]| == 22 && |MARKERS[1]| == 25 && |MARKERS[2]| == 18;
    assert |MARKERS[3]| == 14 && |MARKERS[4]| == 11 && |MARKERS[5]| == 15;
    assert |forms[1][1]| == OVERLAP + 1;
  }

  lemma TooShort(encoded: seq<bytes>, text: bytes)
    requires forall f :: 0 <= f < |encoded| ==> |encoded[f]| > |text|
    ensures !SomeFormOccurs(encoded, text)
  {
  }

  lemma OneOrTwoChunks(forms: Forms, overlap: nat, first: bytes, second: bytes)
    requires FirstMatch(forms, Lower(first), 0).Some? && FirstMatch(forms, Lower(first + second), 0).Some?
    ensures Flatten([first + second]) == Flatten([first, second])
    ensures Search(forms, overlap, [], [first + second]) == FirstMatch(forms, Lower(first + second), 0)
    ensures Search(forms, overlap, [], [first, second]) == FirstMatch(forms, Lower(first), 0)
  {
    var pair, single: seq<bytes>, whole: seq<bytes> := [first, second], [second], [first + second];
    assert pair[1..] == single && single[1..] == [] && whole[1..] == [];
    assert Flatten(single) == second && Flatten(pair) == first + second && Flatten(whole) == first + second;
    assert [] + Lower(first) == Lower(first) && [] + Lower(first + second) == Lower(first + second);
  }

  lemma FourthComesFirst(forms: Forms, text: bytes)
    requires |forms| > 3 && SomeFormOccurs(forms[3], text)
    requires !SomeFormOccurs(forms[0], text) && !SomeFormOccurs(forms[1], text) && !SomeFormOccurs(forms[2], text)
    ensures FirstMatch(forms, text, 0) == Some(3)
  {
    assert FirstMatch(forms, text, 2) == Some(3);
    assert FirstMatch(forms, text, 1) == Some(3);
  }

  /** The marker named does depend on the cut: one text, two chunkings, two answers. */
  lemma NamedMarkerDependsOnChunking()
    ensures var forms := FormsOf(MARKERS);
      var first, second := AsciiBytes(MARKERS[3]), AsciiBytes(MARKERS[0]);
      && Flatten([first + second]) == Flatten([first, second])
      && Search(forms, OVERLAP, [], [first + second]) == Some(0)
      && Search(forms, OVERLAP, [], [first, second]) == Some(3)
  {
    var forms := FormsOf(MARKERS);
    var first, second := AsciiBytes(MARKERS[3]), AsciiBytes(MARKERS[0]);
    assert Lower(first) == first && Lower(first + second) == first + second;
    assert OccursAt(forms[0][0], first + second, |first|);
    assert FirstMatch(forms, first + second, 0) == Some(0);
    assert |MARKERS[0]| == 22 && |MARKERS[1]| == 25 && |MARKERS[2]| == 18 && |MARKERS[3]| == 14;
    TooShort(forms[0], first);
    TooShort(forms[1], first);
    TooShort(forms[2], first);
    assert OccursAt(forms[3][0], first, 0);
    FourthComesFirst(forms, first);
    OneOrTwoChunks(forms, OVERLAP, first, second);
  }
}

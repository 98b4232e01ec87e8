/** What the shipped search finds, byte by byte: a marker in ASCII or in UTF-16, in any letter case. */
module MarkerMeaning {
  import opened Wrappers
  import opened Bytes
  import opened MarkerSearch

  /** The byte is the character, or its capital. */
  predicate Reads(b: byte, c: char) {
    b == c as int || ('A' as int <= b <= 'Z' as int && b + 32 == c as int)
  }

  /** The marker in ASCII at a position. */
  predicate NarrowAt(text: bytes, i: nat, marker: string) {
    i + |marker| <= |text| && forall j :: 0 <= j < |marker| ==> Reads(text[i + j], marker[j])
  }

  /** The marker in UTF-16, low byte first, at a position. */
  predicate WideAt(text: bytes, i: nat, marker: string) {
    && i + 2 * |marker| <= |text|
    && forall j :: 0 <= j < |marker| ==> Reads(text[i + 2 * j], marker[j]) && text[i + 2 * j + 1] == 0
  }

  ghost predicate Contains(text: bytes, marker: string) {
    exists i :: 0 <= i <= |text| && (NarrowAt(text, i, marker) || WideAt(text, i, marker))
  }

  /** ASCII without capitals. */
  predicate IsLowerAscii(marker: string) {
    forall j :: 0 <= j < |marker| ==> marker[j] as int < 128 && !('A' <= marker[j] <= 'Z')
  }

  lemma NarrowExact(text: bytes, i: nat, marker: string)
    requires IsLowerAscii(marker)
    ensures OccursAt(AsciiBytes(marker), Lower(text), i) <==> NarrowAt(text, i, marker)
  {
    var pattern, lowered := AsciiBytes(marker), Lower(text);
    if i + |marker| <= |text| {
      forall j | 0 <= j < |marker|
        ensures lowered[i..i + |marker|][j] == pattern[j] <==> Reads(text[i + j], marker[j])
      {
      }
      if NarrowAt(text, i, marker) {
        assert lowered[i..i + |marker|] == pattern;
      }
    }
  }

  lemma WideByte(text: bytes, i: nat, marker: string, j: nat)
    requires IsLowerAscii(marker) && i + 2 * |marker| <= |text| && j < |marker|
    ensures Lower(text)[i + 2 * j] == Utf16le(marker)[2 * j] <==> Reads(text[i + 2 * j], marker[j])
    ensures Lower(text)[i + 2 * j + 1] == Utf16le(marker)[2 * j + 1] <==> text[i + 2 * j + 1] == 0
  {
  }

  lemma WideMatches(text: bytes, i: nat, marker: string)
    requires IsLowerAscii(marker) && WideAt(text, i, marker)
    ensures OccursAt(Utf16le(marker), Lower(text), i)
  {
    var pattern, window := Utf16le(marker), Lower(text)[i..i + 2 * |marker|];
    forall k | 0 <= k < 2 * |marker| ensures window[k] == pattern[k] {
      var j := k / 2;
      assert k == 2 * j || k == 2 * j + 1;
      WideByte(text, i, marker, j);
    }
    assert window == pattern;
  }

  lemma MatchIsWide(text: bytes, i: nat, marker: string)
    requires IsLowerAscii(marker) && OccursAt(Utf16le(marker), Lower(text), i)
    ensures WideAt(text, i, marker)
  {
    var pattern, window := Utf16le(marker), Lower(text)[i..i + 2 * |marker|];
    forall j | 0 <= j < |marker| ensures Reads(text[i + 2 * j], marker[j]) && text[i + 2 * j + 1] == 0 {
      WideByte(text, i, marker, j);
      assert window[2 * j] == pattern[2 * j] && window[2 * j + 1] == pattern[2 * j + 1];
    }
  }

  lemma WideExact(text: bytes, i: nat, marker: string)
    requires IsLowerAscii(marker)
    ensures OccursAt(Utf16le(marker), Lower(text), i) <==> WideAt(text, i, marker)
  {
    if WideAt(text, i, marker) {
      WideMatches(text, i, marker);
    }
    if OccursAt(Utf16le(marker), Lower(text), i) {
      MatchIsWide(text, i, marker);
    }
  }

  lemma FormsExact(markers: seq<string>, m: nat, text: bytes)
    requires m < |markers| && IsLowerAscii(markers[m])
    ensures SomeFormOccurs(FormsOf(markers)[m], Lower(text)) <==> Contains(text, markers[m])
  {
    var narrow, wide := AsciiBytes(markers[m]), Utf16le(markers[m]);
    assert FormsOf(markers)[m] == [narrow, wide];
    forall i: nat
      ensures OccursAt(narrow, Lower(text), i) <==> NarrowAt(text, i, markers[m])
      ensures OccursAt(wide, Lower(text), i) <==> WideAt(text, i, markers[m])
    {
      NarrowExact(text, i, markers[m]);
      WideExact(text, i, markers[m]);
    }
    FormOfTwo(narrow, wide, Lower(text));
  }

  lemma FormOfTwo(a: bytes, b: bytes, text: bytes)
    ensures SomeFormOccurs([a, b], text)
       <==> exists i :: 0 <= i <= |text| && (OccursAt(a, text, i) || OccursAt(b, text, i))
  {
    var forms := [a, b];
    assert forms[0] == a && forms[1] == b;
    if i :| 0 <= i <= |text| && OccursAt(a, text, i) {
      assert Occurs(forms[0], text);
    }
    if i :| 0 <= i <= |text| && OccursAt(b, text, i) {
      assert Occurs(forms[1], text);
    }
  }

  lemma ShippedAreLower()
    ensures forall m :: 0 <= m < |MARKERS| ==> IsLowerAscii(MARKERS[m])
  {
    assert IsLowerAscii("https://nmap.org/dist/") && IsLowerAscii("https://nmap.org/download");
    assert IsLowerAscii("choco install nmap") && IsLowerAscii("winget install");
    assert IsLowerAscii("-verb runas") && IsLowerAscii("shellexecuteexw");
  }

  /** However a file is cut into chunks, the shipped search finds something exactly when the file contains a marker, and
    * then names one that it contains. */
  lemma ShippedSearchExact(chunks: seq<bytes>)
    ensures var found, text := Search(FormsOf(MARKERS), OVERLAP, [], chunks), Flatten(chunks);
      && (found.Some? <==> exists m :: 0 <= m < |MARKERS| && Contains(text, MARKERS[m]))
      && (found.Some? ==> found.value < |MARKERS| && Contains(text, MARKERS[found.value]))
  {
    ShippedOverlap();
    ShippedAreLower();
    SearchEqualsWholeText(FormsOf(MARKERS), OVERLAP, chunks);
    forall m | 0 <= m < |MARKERS|
      ensures SomeFormOccurs(FormsOf(MARKERS)[m], Lower(Flatten(chunks))) <==> Contains(Flatten(chunks), MARKERS[m])
    {
      FormsExact(MARKERS, m, Flatten(chunks));
    }
  }

  /** What is carried from chunk to chunk is the end of what was seen, no longer than the overlap. */
  lemma TailExact(text: bytes, count: nat)
    requires count > 0
    ensures |Tail(text, count)| == (if |text| < count then |text| else count)
    ensures text[|text| - |Tail(text, count)|..] == Tail(text, count)
  {
  }
}

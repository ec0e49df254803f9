/** Clients of `OnNewSentence` that rely on its contract alone: the growth,
    shrink, allocator-failure and console cases on concrete sentences. */
module Scenarios {
  import opened Common
  import opened Textractor
  import opened Extension

  /** An info array whose only entry is "text number" = `n`. */
  function InfoWithTextNumber(n: int64): (info: SentenceInfo)
    ensures LookupDefined(info, PropertyName.TextNumber)
    ensures TextNumberOf(info) == Done(ClassifyTextNumber(n))
  {
    var entries := [Entry(Some(NameBytes(PropertyName.TextNumber)), n)];
    NameBytesEncodeName(PropertyName.TextNumber);
    assert FirstMatchAt(entries, NameBytes(PropertyName.TextNumber), 0);
    GetterOfFirstMatch(entries, PropertyName.TextNumber, 0);
    SentenceInfo(Some(entries))
  }

  /** The ligature U+FB01 (one unit) normalises to "fi" (two units): the
      block is reallocated and the host reads "fi" back. */
  method GrowthScenario(normalize: Normalizer) returns (grown: bool, text: seq<u16>)
    requires normalize([0xFB01]) == [0x66, 0x69]
    ensures grown && text == [0x66, 0x69]
  {
    var block := new u16[2];
    block[0], block[1] := 0xFB01, 0;
    assert block[..] == [0xFB01] + [0] + [];
    CStringOfTerminated([0xFB01], []);
    var heap := new ProcessHeap(false);
    var r := OnNewSentence(block, InfoWithTextNumber(7), heap, normalize);
    grown := r.Done? && r.value != block;
    text := CString(r.value[..]);
  }

  /** "e" and a combining acute (two units) normalise to U+00E9 (one unit):
      the block is reused and the stale second unit is past the terminator. */
  method ShrinkScenario(normalize: Normalizer) returns (reused: bool, text: seq<u16>)
    requires normalize([0x65, 0x301]) == [0xE9]
    ensures reused && text == [0xE9]
  {
    var block := new u16[3];
    block[0], block[1], block[2] := 0x65, 0x301, 0;
    assert block[..] == [0x65, 0x301] + [0] + [];
    CStringOfTerminated([0x65, 0x301], []);
    var heap := new ProcessHeap(false);
    var r := OnNewSentence(block, InfoWithTextNumber(7), heap, normalize);
    reused := r == Done(block);
    text := CString(block[..]);
  }

  /** A growth the heap refuses: the original block comes back untouched. */
  method AllocatorFailureScenario(normalize: Normalizer) returns (reused: bool, text: seq<u16>)
    requires normalize([0xFB01]) == [0x66, 0x69]
    ensures reused && text == [0xFB01]
  {
    var block := new u16[2];
    block[0], block[1] := 0xFB01, 0;
    assert block[..] == [0xFB01] + [0] + [];
    CStringOfTerminated([0xFB01], []);
    var heap := new ProcessHeap(true);
    var r := OnNewSentence(block, InfoWithTextNumber(7), heap, normalize);
    reused := r == Done(block);
    text := CString(block[..]);
  }

  /** Console text is never normalised, whatever the normaliser does. */
  method ConsoleScenario(normalize: Normalizer) returns (reused: bool, text: seq<u16>)
    ensures reused && text == [0xFB01]
  {
    var block := new u16[2];
    block[0], block[1] := 0xFB01, 0;
    assert block[..] == [0xFB01] + [0] + [];
    CStringOfTerminated([0xFB01], []);
    var heap := new ProcessHeap(false);
    var r := OnNewSentence(block, InfoWithTextNumber(0), heap, normalize);
    reused := r == Done(block);
    text := CString(block[..]);
  }
}

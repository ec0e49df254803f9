/** The boundary bridge of src/lib.rs: `ProcessSentence` and the buffer
    protocol of `OnNewSentence`.

    The host's sentence is a NUL-terminated block of UTF-16 code units, here
    an array. The normaliser (lossy UTF-16 decoding, NFKC, re-encoding) is a
    parameter, and the process heap is an object whose `HeapReAlloc` either
    refuses or hands back a fresh block. */
module Extension {
  import opened Common
  import opened Textractor

  newtype u16 = x: int | 0 <= x < 0x1_0000

  /** Lossy decoding, NFKC and re-encoding, taken as one opaque function. */
  type Normalizer = seq<u16> -> seq<u16>

  // ---------------------------------------------------------------------
  // NUL-terminated UTF-16 text
  // ---------------------------------------------------------------------

  /** The code units a C reader sees: everything before the first 0. */
  function CString(s: seq<u16>): seq<u16>
    decreases |s|
  {
    if s == [] || s[0] == 0 then [] else [s[0]] + CString(s[1..])
  }

  /** Content followed by a terminator reads back as exactly that content,
      whatever follows the terminator. */
  lemma {:induction false} CStringOfTerminated(content: seq<u16>, rest: seq<u16>)
    requires 0 !in content
    ensures CString(content + [0] + rest) == content
    decreases |content|
  {
    var s := content + [0] + rest;
    if content != [] {
      assert s[0] == content[0];
      assert s[1..] == content[1..] + [0] + rest;
      CStringOfTerminated(content[1..], rest);
    }
  }

  /** `U16CString::from_ptr_str(..).into_ustring()`: the units before the
      terminator. Reading stops at the first 0, so it stays inside the block. */
  method ReadCString(buf: array<u16>) returns (s: seq<u16>)
    requires 0 in buf[..]
    ensures |s| < buf.Length && buf[|s|] == 0
    ensures s == buf[..|s|] && 0 !in s
    ensures s == CString(buf[..])
  {
    var n := 0;
    while buf[n] != 0
      invariant 0 <= n < buf.Length
      invariant 0 in buf[n..]
      invariant 0 !in buf[..n]
      decreases buf.Length - n
    {
      assert buf[n..] == [buf[n]] + buf[n + 1..];
      assert buf[..n + 1] == buf[..n] + [buf[n]];
      n := n + 1;
    }
    s := buf[..n];
    assert buf[..] == s + [0] + buf[n + 1..];
    CStringOfTerminated(s, buf[n + 1..]);
  }

  /** `copy_nonoverlapping(content, dst, len)` followed by the store of the
      terminator at `dst[len]`. Nothing past the terminator is written. */
  method WriteTerminated(dst: array<u16>, content: seq<u16>)
    requires |content| < dst.Length
    modifies dst
    ensures dst[..|content|] == content && dst[|content|] == 0
    ensures forall i :: |content| < i < dst.Length ==> dst[i] == old(dst[i])
    ensures 0 !in content ==> CString(dst[..]) == content
  {
    forall i | 0 <= i < |content| {
      dst[i] := content[i];
    }
    dst[|content|] := 0;
    if 0 !in content {
      assert dst[..] == content + [0] + dst[|content| + 1..];
      CStringOfTerminated(content, dst[|content| + 1..]);
    }
  }

  // ---------------------------------------------------------------------
  // ProcessSentence
  // ---------------------------------------------------------------------

  /** `U16String`: an owned, growable UTF-16 string. */
  class U16String {
    var units: seq<u16>

    constructor (units: seq<u16>)
      ensures this.units == units
    {
      this.units := units;
    }
  }

  /** Console text is left alone (false); any other text is replaced by its
      normalised form (true). A missing "text number" panics. */
  method ProcessSentence(sentence: U16String, info: SentenceInfo, normalize: Normalizer) returns (r: Outcome<bool>)
    requires LookupDefined(info, PropertyName.TextNumber)
    modifies sentence
    ensures TextNumberOf(info).Panicked? ==> r == Panicked
    ensures TextNumberOf(info).Done? ==> r == Done(TextNumberOf(info).value != Console)
    ensures r == Done(true) ==> sentence.units == normalize(old(sentence.units))
    ensures r != Done(true) ==> sentence.units == old(sentence.units)
  {
    var textNumber := GetTextNumber(info);
    if textNumber.Panicked? {
      return Panicked;
    }
    if textNumber.value == Console {
      return Done(false);
    }
    var normalized := normalize(sentence.units);
    sentence.units := normalized;
    return Done(true);
  }

  // ---------------------------------------------------------------------
  // The process heap
  // ---------------------------------------------------------------------

  /** One request made of the heap: the block and the size asked for, in bytes. */
  datatype ReAllocCall = ReAllocCall(block: array<u16>, bytes: nat)

  /** The process-wide heap the host allocated the sentence from. `calls`
      records every resize request made of it. */
  class ProcessHeap {
    ghost var calls: seq<ReAllocCall>
    /** Whether the heap cannot satisfy a growing request. */
    var outOfMemory: bool

    constructor (outOfMemory: bool)
      ensures calls == [] && this.outOfMemory == outOfMemory
    {
      calls := [];
      this.outOfMemory := outOfMemory;
    }

    /** `HeapReAlloc(GetProcessHeap(), _, block, bytes)`: null when the heap
        is out of memory, otherwise a fresh block of at least `bytes` bytes
        that starts with the old contents. */
    method HeapReAlloc(block: array<u16>, bytes: nat) returns (r: array?<u16>)
      modifies this`calls
      ensures calls == old(calls) + [ReAllocCall(block, bytes)]
      ensures r == null <==> outOfMemory
      ensures r != null ==> fresh(r) && 2 * r.Length >= bytes
      ensures r != null ==> forall i :: 0 <= i < r.Length && i < block.Length ==> r[i] == block[i]
    {
      calls := calls + [ReAllocCall(block, bytes)];
      if outOfMemory {
        return null;
      }
      var n := (bytes + 1) / 2;
      var grown := new u16[n];
      forall i | 0 <= i < n && i < block.Length {
        grown[i] := block[i];
      }
      return grown;
    }
  }

  // ---------------------------------------------------------------------
  // OnNewSentence
  // ---------------------------------------------------------------------

  /** The sentence is not console text, so `ProcessSentence` normalises it. */
  predicate Normalizes(info: SentenceInfo)
    requires LookupDefined(info, PropertyName.TextNumber)
  {
    TextNumberOf(info).Done? && TextNumberOf(info).value != Console
  }

  /** Normalising the text held in `block` makes it longer. */
  predicate Grows(block: seq<u16>, normalize: Normalizer) {
    |normalize(CString(block))| > |CString(block)|
  }

  /** The extension's entry point. Measures the host's text, processes a copy
      of it, and reconciles the host's block with the result:
      - not processed (console text): the original block, untouched;
      - longer than before: the block is resized to `(len + 1) * 2` bytes; if
        the heap refuses, the original block, untouched; otherwise the new
        block, holding the text and a terminator;
      - not longer: the original block, overwritten in place up to and
        including the new terminator, the rest untouched. */
  method OnNewSentence(sentence: array<u16>, info: SentenceInfo, heap: ProcessHeap, normalize: Normalizer)
    returns (r: Outcome<array<u16>>)
    requires 0 in sentence[..]
    requires LookupDefined(info, PropertyName.TextNumber)
    modifies sentence, heap`calls
    ensures TextNumberOf(info).Panicked? ==>
      r == Panicked && sentence[..] == old(sentence[..]) && heap.calls == old(heap.calls)
    ensures TextNumberOf(info) == Done(Console) ==>
      r == Done(sentence) && sentence[..] == old(sentence[..]) && heap.calls == old(heap.calls)
    ensures Normalizes(info) && Grows(old(sentence[..]), normalize) ==>
      heap.calls == old(heap.calls) + [ReAllocCall(sentence, (|normalize(CString(old(sentence[..])))| + 1) * 2)]
    ensures Normalizes(info) && Grows(old(sentence[..]), normalize) && heap.outOfMemory ==>
      r == Done(sentence) && sentence[..] == old(sentence[..])
    ensures Normalizes(info) && Grows(old(sentence[..]), normalize) && !heap.outOfMemory ==>
      var normalized := normalize(CString(old(sentence[..])));
      && r.Done? && r.value != sentence && fresh(r.value)
      && |normalized| < r.value.Length
      && r.value[..|normalized|] == normalized && r.value[|normalized|] == 0
      && (0 !in normalized ==> CString(r.value[..]) == normalized)
    ensures Normalizes(info) && !Grows(old(sentence[..]), normalize) ==>
      var normalized := normalize(CString(old(sentence[..])));
      && r == Done(sentence)
      && heap.calls == old(heap.calls)
      && |normalized| <= |CString(old(sentence[..]))| < sentence.Length
      && sentence[..|normalized|] == normalized && sentence[|normalized|] == 0
      && (forall i :: |normalized| < i < sentence.Length ==> sentence[i] == old(sentence[i]))
      && (0 !in normalized ==> CString(sentence[..]) == normalized)
  {
    var text := ReadCString(sentence);
    var oldLen := |text|;
    var sentenceCopy := new U16String(text);
    var processed := ProcessSentence(sentenceCopy, info, normalize);
    if processed.Panicked? {
      return Panicked;
    }
    if processed.value {
      var normalized := sentenceCopy.units;
      if |normalized| > oldLen {
        var newSize := (|normalized| + 1) * 2;
        var newPtr := heap.HeapReAlloc(sentence, newSize);
        if newPtr == null {
          return Done(sentence);
        }
        WriteTerminated(newPtr, normalized);
        return Done(newPtr);
      } else {
        WriteTerminated(sentence, normalized);
      }
    }
    return Done(sentence);
  }
}

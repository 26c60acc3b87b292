/** decodeLZ4Prefix and the field name decision of decodeName for lz4: the
    partial decode, which stops reading a value as early as it can. */
module Lz4Prefix {
  import opened Common
  import opened Lz4Block

  /** The block begins after these bytes. */
  const SIZE_PREFIX := 8

  /** How many bytes of text the name search wants. */
  const NAME_PREFIX_BYTES := 65

  datatype Lz4Error = NoBlock | Truncated | BadOffset(offset: nat, decoded: nat)

  /** The result of a partial decode: its text, whether it came to the end of
      its input, and what was wrong. */
  datatype Outcome = Outcome(text: seq<byte>, atEnd: bool, error: Option<Lz4Error>)

  /** A length read no further than needed: its value so far, and the
      position after the bytes read. */
  function LengthUpTo(src: seq<byte>, at: nat, base: nat, needed: nat): (r: Option<(nat, nat)>)
    requires at <= |src|
    ensures r.Some? ==> at <= r.value.1 <= |src| && base <= r.value.0
    decreases |src| - at
  {
    if base >= needed then Some((base, at))
    else if at == |src| then None
    else if src[at] != 255 then Some((base + src[at], at + 1))
    else LengthUpTo(src, at + 1, base + 255, needed)
  }

  function PartialMatchLength(src: seq<byte>, nibble: nat, at: nat, needed: nat): (r: Option<(nat, nat)>)
    requires at <= |src|
    ensures r.Some? ==> at <= r.value.1 <= |src|
    ensures r.Some? ==> 4 <= r.value.0
  {
    if nibble == 15 then LengthUpTo(src, at, 19, needed) else Some((nibble + 4, at))
  }

  /** What one half of a sequence leaves: the decode stops, or goes on at
      src[at..] with the text so far. */
  datatype Part = Stop(o: Outcome) | Go(at: nat, text: seq<byte>)

  /** The literals of the sequence at src[at]; Go says where its match
      starts. */
  function LiteralPart(src: seq<byte>, at: nat, text: seq<byte>, cap: nat): (p: Part)
    requires at < |src| && |text| < cap
    ensures p.Go? ==> at < p.at < |src| && text <= p.text && |p.text| < cap
    ensures p.Stop? ==> text <= p.o.text && |p.o.text| <= cap && p.o.error != Some(NoBlock)
  {
    match LiteralRun(src, at)
    case None => Stop(Outcome(text, true, Some(Truncated)))
    case Some((literals, start)) =>
      var available := |src| - start;
      var copied := Min(Min(literals, available), cap - |text|);
      var text1 := text + src[start..start + copied];
      if |text1| == cap then Stop(Outcome(text1, false, None))
      else if literals > available then Stop(Outcome(text1, true, Some(Truncated)))
      else if start + literals == |src| then Stop(Outcome(text1, true, None))
      else Go(start + literals, text1)
  }

  /** The match whose offset is at src[at], of a sequence whose token's low
      bits are nibble; Go says where the next sequence starts. */
  function MatchPart(src: seq<byte>, nibble: nat, at: nat, text: seq<byte>, cap: nat): (p: Part)
    requires at <= |src| && |text| < cap
    ensures p.Go? ==> at < p.at <= |src| && text < p.text && |p.text| <= cap
    ensures p.Stop? ==> p.o.text == text && p.o.error != Some(NoBlock)
  {
    if at + 2 > |src| then Stop(Outcome(text, true, Some(Truncated)))
    else
      var offset, needed := OffsetAt(src, at), cap - |text|;
      if offset == 0 || offset > |text| then Stop(Outcome(text, false, Some(BadOffset(offset, |text|))))
      else
        match PartialMatchLength(src, nibble, at + 2, needed)
        case None => Stop(Outcome(text, true, Some(Truncated)))
        case Some((length, after)) => Go(after, CopyMatch(text, offset, Min(length, needed)))
  }

  /** The sequence at src[at]. */
  function SequencePart(src: seq<byte>, at: nat, text: seq<byte>, cap: nat): (p: Part)
    requires at < |src| && |text| < cap
    ensures p.Go? ==> at < p.at <= |src| && text < p.text && |p.text| <= cap
    ensures p.Stop? ==> text <= p.o.text && |p.o.text| <= cap && p.o.error != Some(NoBlock)
  {
    var p := LiteralPart(src, at, text, cap);
    if p.Stop? then p else MatchPart(src, src[at] % 16, p.at, p.text, cap)
  }

  /** The partial decode of the sequences in src[at..] after text, which
      stops once it holds cap bytes. */
  function Run(src: seq<byte>, at: nat, text: seq<byte>, cap: nat): (o: Outcome)
    requires at <= |src| && |text| <= cap
    ensures text <= o.text && |o.text| <= cap && o.error != Some(NoBlock)
    decreases |src| - at
  {
    if |text| == cap then Outcome(text, false, None)
    else if at == |src| then Outcome(text, true, None)
    else
      var p := SequencePart(src, at, text, cap);
      if p.Stop? then p.o else Run(src, p.at, p.text, cap)
  }

  /** The partial decode of a stored value: its size field, then a block. */
  function Prefix(stored: seq<byte>, cap: nat): Outcome {
    if |stored| <= SIZE_PREFIX then Outcome([], true, Some(NoBlock))
    else Run(stored[SIZE_PREFIX..], 0, [], cap)
  }

  // ---------------------------------------------------------------------
  // The decoder, in place.

  /** The length closure: reads continuation bytes from src[at..] until one
      is not 255 or the length reaches needed (None: every one of them). */
  method ReadLength(src: seq<byte>, at: nat, base: nat, needed: Option<nat>)
    returns (length: nat, after: nat, ok: bool)
    requires at <= |src|
    ensures at <= after <= |src|
    ensures needed.None? ==>
              if ok then FullLength(src, at, base) == Some((length, after)) else FullLength(src, at, base) == None
    ensures needed.Some? ==>
              if ok then LengthUpTo(src, at, base, needed.value) == Some((length, after))
              else LengthUpTo(src, at, base, needed.value) == None
  {
    length, after := base, at;
    while needed.None? || length < needed.value
      invariant at <= after <= |src|
      invariant needed.None? ==> FullLength(src, after, length) == FullLength(src, at, base)
      invariant needed.Some? ==>
                  LengthUpTo(src, after, length, needed.value) == LengthUpTo(src, at, base, needed.value)
      decreases |src| - after
    {
      if after >= |src| {
        return 0, after, false;
      }
      var b := src[after];
      after := after + 1;
      length := length + b;
      if b != 255 {
        return length, after, true;
      }
    }
    ok := true;
  }

  /** Fills dst from a stored lz4 value. Whenever the value's block decodes as
      a whole to some text, dst holds that text's first bytes, as many as
      there is room for, and there is no error. */
  method DecodePrefix(stored: seq<byte>, dst: array<byte>)
    returns (n: nat, atEnd: bool, error: Option<Lz4Error>)
    modifies dst
    ensures n <= dst.Length
    ensures Outcome(dst[..n], atEnd, error) == Prefix(stored, dst.Length)
    ensures |stored| > SIZE_PREFIX ==>
              var whole := Decode(stored[SIZE_PREFIX..], 0, []);
              whole.Some? ==> error == None && dst[..n] == whole.value[..Min(dst.Length, |whole.value|)]
  {
    if |stored| <= SIZE_PREFIX {
      return 0, true, Some(NoBlock);
    }
    var src := stored[SIZE_PREFIX..];
    ghost var goal := Prefix(stored, dst.Length);
    if Decode(src, 0, []).Some? {
      PrefixOfWhole(src, 0, [], dst.Length);
    }
    hide *;
    var ip := 0;
    n := 0;
    while n < dst.Length
      invariant ip <= |src| && n <= dst.Length
      invariant Run(src, ip, dst[..n], dst.Length) == goal
      decreases |src| - ip
    {
      ghost var text := dst[..n];
      if ip >= |src| {
        RunStep(src, ip, text, dst.Length);
        return n, true, None;
      }
      RunStep(src, ip, text, dst.Length);
      var nibble := src[ip] % 16;
      var stop;
      stop, ip, n, atEnd, error := TakeLiterals(src, ip, dst, n);
      if stop {
        return;
      }
      stop, ip, n, atEnd, error := TakeMatch(src, nibble, ip, dst, n);
      if stop {
        return;
      }
    }
    RunStep(src, ip, dst[..n], dst.Length);
    return n, false, None;
  }

  lemma RunStep(src: seq<byte>, at: nat, text: seq<byte>, cap: nat)
    requires at <= |src| && |text| <= cap
    ensures |text| == cap ==> Run(src, at, text, cap) == Outcome(text, false, None)
    ensures |text| < cap && at == |src| ==> Run(src, at, text, cap) == Outcome(text, true, None)
    ensures |text| < cap && at < |src| ==>
              var p := LiteralPart(src, at, text, cap);
              if p.Stop? then Run(src, at, text, cap) == p.o
              else
                var q := MatchPart(src, src[at] % 16, p.at, p.text, cap);
                Run(src, at, text, cap) == if q.Stop? then q.o else Run(src, q.at, q.text, cap)
  {
    hide LiteralPart, MatchPart;
  }

  /** Copies bytes of src to dst, after the n bytes of text there. */
  method CopyIn(src: seq<byte>, ip: nat, dst: array<byte>, n: nat, copied: nat)
    requires ip + copied <= |src| && n + copied <= dst.Length
    modifies dst
    ensures dst[..n + copied] == old(dst[..n]) + src[ip..ip + copied]
  {
    forall i | 0 <= i < copied {
      dst[n + i] := src[ip + i];
    }
  }

  /** The length of the literals of the sequence at src[at], and where they
      start. They come after all of their length bytes. */
  method ReadRun(src: seq<byte>, at: nat) returns (literals: nat, ip: nat, ok: bool)
    requires at < |src|
    ensures at < ip <= |src|
    ensures LiteralRun(src, at) == if ok then Some((literals, ip)) else None
  {
    literals, ip, ok := src[at] / 16, at + 1, true;
    if literals == 15 {
      literals, ip, ok := ReadLength(src, ip, literals, None);
    }
  }

  /** What literals of a known length leave, once they are in the text. */
  lemma LiteralPartIs(src: seq<byte>, at: nat, text: seq<byte>, cap: nat, literals: nat, start: nat, text1: seq<byte>)
    requires at < |src| && |text| < cap && start <= |src| && LiteralRun(src, at) == Some((literals, start))
    requires text1 == text + src[start..start + Min(Min(literals, |src| - start), cap - |text|)]
    ensures LiteralPart(src, at, text, cap)
            == if |text1| == cap then Stop(Outcome(text1, false, None))
               else if literals > |src| - start then Stop(Outcome(text1, true, Some(Truncated)))
               else if start + literals == |src| then Stop(Outcome(text1, true, None))
               else Go(start + literals, text1)
  {
    hide LiteralRun;
  }

  lemma NoLiteralPart(src: seq<byte>, at: nat, text: seq<byte>, cap: nat)
    requires at < |src| && |text| < cap && LiteralRun(src, at) == None
    ensures LiteralPart(src, at, text, cap) == Stop(Outcome(text, true, Some(Truncated)))
  {
    hide LiteralRun;
  }

  /** One pass of the loop, up to the sequence's match: decodes into dst, of
      which n bytes are text, the literals of the sequence at src[at]. */
  method TakeLiterals(src: seq<byte>, at: nat, dst: array<byte>, start: nat)
    returns (stop: bool, ip: nat, n: nat, atEnd: bool, error: Option<Lz4Error>)
    requires at < |src| && start < dst.Length
    modifies dst
    ensures start <= n <= dst.Length
    ensures LiteralPart(src, at, old(dst[..start]), dst.Length) ==
            if stop then Stop(Outcome(dst[..n], atEnd, error)) else Go(ip, dst[..n])
  {
    hide LiteralPart, LiteralRun;
    ghost var text := dst[..start];
    n := start;
    stop, atEnd, error := true, false, None;
    var literals, ok;
    literals, ip, ok := ReadRun(src, at);
    if !ok {
      NoLiteralPart(src, at, text, dst.Length);
      atEnd, error := true, Some(Truncated);
      return;
    }
    var available := |src| - ip;
    var copied := Min(Min(literals, available), dst.Length - n);
    CopyIn(src, ip, dst, n, copied);
    n := n + copied;
    LiteralPartIs(src, at, text, dst.Length, literals, ip, dst[..n]);
    if n == dst.Length {
      return;
    }
    if literals > available {
      atEnd, error := true, Some(Truncated);
      return;
    }
    ip := ip + literals;
    stop, atEnd := ip == |src|, ip == |src|;
  }

  /** The rest of the pass: the match whose offset is at src[at]. */
  method TakeMatch(src: seq<byte>, nibble: nat, at: nat, dst: array<byte>, start: nat)
    returns (stop: bool, ip: nat, n: nat, atEnd: bool, error: Option<Lz4Error>)
    requires at <= |src| && start < dst.Length
    modifies dst
    ensures start <= n <= dst.Length
    ensures MatchPart(src, nibble, at, old(dst[..start]), dst.Length) ==
            if stop then Stop(Outcome(dst[..n], atEnd, error)) else Go(ip, dst[..n])
  {
    hide CopyMatch, LengthUpTo, FullLength;
    n, ip := start, at;
    stop, atEnd, error := true, true, Some(Truncated);
    if ip + 2 > |src| {
      return;
    }
    var offset := OffsetAt(src, ip);
    ip := ip + 2;
    if offset == 0 || offset > n {
      atEnd, error := false, Some(BadOffset(offset, n));
      return;
    }
    var length := nibble + 4;
    if nibble == 15 {
      // Past dst's room the length cannot matter, so ReadLength is told where
      // to stop.
      var ok;
      length, ip, ok := ReadLength(src, ip, length, Some(dst.Length - n));
      if !ok {
        return;
      }
    }
    n := CopyWithin(dst, n, offset, length);
    stop, atEnd, error := false, false, None;
  }

  /** The match loop: copies length bytes from offset back, one at a time,
      as far as dst has room. */
  method CopyWithin(dst: array<byte>, start: nat, offset: nat, length: nat) returns (n: nat)
    requires start <= dst.Length && 1 <= offset <= start
    modifies dst
    ensures n == start + Min(length, dst.Length - start)
    ensures dst[..n] == CopyMatch(old(dst[..start]), offset, n - start)
  {
    n := start;
    var left := length;
    ghost var text := dst[..start];
    while left > 0 && n < dst.Length
      invariant start <= n <= dst.Length && n - start == length - left
      invariant dst[..n] == CopyMatch(text, offset, n - start)
    {
      ghost var copied := dst[..n];
      dst[n] := dst[n - offset];
      n := n + 1;
      left := left - 1;
      assert dst[..n] == copied + [copied[|copied| - offset]];
    }
  }

  // ---------------------------------------------------------------------
  // The partial decode gives the start of the whole decode.

  lemma {:induction false} CopyMatchSplit(text: seq<byte>, offset: nat, a: nat, b: nat)
    requires 1 <= offset <= |text|
    ensures CopyMatch(text, offset, a + b) == CopyMatch(CopyMatch(text, offset, a), offset, b)
    decreases b
  {
    if b > 0 {
      CopyMatchSplit(text, offset, a, b - 1);
    }
  }

  /** Reading no further than needed agrees with the full length, or has
      reached needed below it. */
  lemma {:induction false} LengthUpToOfFull(src: seq<byte>, at: nat, base: nat, needed: nat)
    requires at <= |src| && FullLength(src, at, base).Some?
    ensures var part, full := LengthUpTo(src, at, base, needed), FullLength(src, at, base);
            part.Some? && (part == full || needed <= part.value.0 <= full.value.0)
    decreases |src| - at
  {
    if base < needed && src[at] == 255 {
      LengthUpToOfFull(src, at + 1, base + 255, needed);
    }
  }

  /** The partial outcome p agrees with the whole step s: the same text and
      place while it is short of cap, else the first cap bytes of the text. */
  ghost predicate Agrees(s: Step, p: Part, cap: nat) {
    && !s.Broken?
    && (if p.Stop? then
          && p.o.error == None
          && p.o.text == s.text[..Min(cap, |s.text|)]
          && (|s.text| < cap ==> s.Done?)
        else
          && s.Next?
          && p.text == s.text[..Min(cap, |s.text|)]
          && (|s.text| < cap ==> p.at == s.after))
  }

  lemma LiteralsOfWhole(src: seq<byte>, at: nat, text: seq<byte>, cap: nat)
    requires at < |src| && |text| < cap && !DecodeLiterals(src, at, text).Broken?
    ensures Agrees(DecodeLiterals(src, at, text), LiteralPart(src, at, text, cap), cap)
  {
    var (literals, start) := LiteralRun(src, at).value;
    var copied := Min(literals, cap - |text|);
    assert src[start..start + copied] == src[start..start + literals][..copied];
    assert (text + src[start..start + literals])[..|text| + copied] == text + src[start..start + copied];
  }

  /** A match's length read no further than needed, against the whole of it. */
  lemma LengthOfWhole(src: seq<byte>, nibble: nat, at: nat, needed: nat)
    requires at <= |src| && MatchLength(src, nibble, at).Some?
    ensures var part, full := PartialMatchLength(src, nibble, at, needed), MatchLength(src, nibble, at);
            part.Some? && (part == full || needed <= part.value.0 <= full.value.0)
  {
    hide FullLength, LengthUpTo;
    if nibble == 15 {
      LengthUpToOfFull(src, at, 19, needed);
    }
  }

  /** A copy of no more than is needed is the start of the whole one. */
  lemma CopyOfWhole(text: seq<byte>, offset: nat, length: nat, needed: nat)
    requires 1 <= offset <= |text|
    ensures var whole := CopyMatch(text, offset, length);
            CopyMatch(text, offset, Min(length, needed)) == whole[..Min(|text| + needed, |whole|)]
  {
    hide CopyMatch;
    if length >= needed {
      CopyMatchSplit(text, offset, needed, length - needed);
    }
  }

  lemma MatchOfWhole(src: seq<byte>, nibble: nat, at: nat, text: seq<byte>, cap: nat)
    requires at <= |src| && |text| < cap && !DecodeMatch(src, nibble, at, text).Broken?
    ensures Agrees(DecodeMatch(src, nibble, at, text), MatchPart(src, nibble, at, text, cap), cap)
  {
    hide CopyMatch, MatchLength, PartialMatchLength, OffsetAt;
    var needed, offset := cap - |text|, OffsetAt(src, at);
    var (length, after) := MatchLength(src, nibble, at + 2).value;
    LengthOfWhole(src, nibble, at + 2, needed);
    var part := PartialMatchLength(src, nibble, at + 2, needed).value.0;
    assert Min(part, needed) == Min(length, needed);
    CopyOfWhole(text, offset, length, needed);
    assert DecodeMatch(src, nibble, at, text) == Next(after, CopyMatch(text, offset, length));
    hide DecodeMatch;
  }

  lemma StepOfWhole(src: seq<byte>, at: nat, text: seq<byte>, cap: nat)
    requires at < |src| && |text| < cap && !DecodeStep(src, at, text).Broken?
    ensures Agrees(DecodeStep(src, at, text), SequencePart(src, at, text, cap), cap)
  {
    var s := DecodeLiterals(src, at, text);
    LiteralsOfWhole(src, at, text, cap);
    if s.Next? {
      var m := DecodeMatch(src, src[at] % 16, s.after, s.text);
      assert s.text <= m.text;
      if |s.text| < cap {
        MatchOfWhole(src, src[at] % 16, s.after, s.text, cap);
      } else {
        assert m.text[..cap] == s.text[..cap];
      }
    }
  }

  /** Once the whole decode exists, the partial decode is its first cap
      bytes, without an error. */
  lemma {:induction false} PrefixOfWhole(src: seq<byte>, at: nat, text: seq<byte>, cap: nat)
    requires at <= |src| && |text| <= cap && Decode(src, at, text).Some?
    ensures var whole := Decode(src, at, text).value;
            var o := Run(src, at, text, cap);
            o.error == None && o.text == whole[..Min(cap, |whole|)]
    decreases |src| - at
  {
    hide DecodeStep, SequencePart;
    DecodeBound(src, at, text);
    if |text| < cap && at < |src| {
      StepOfWhole(src, at, text, cap);
      var s := DecodeStep(src, at, text);
      if s.Next? {
        DecodeBound(src, s.after, s.text);
        var whole := Decode(src, s.after, s.text).value;
        if |s.text| < cap {
          assert s.text[..|s.text|] == s.text;
          PrefixOfWhole(src, s.after, s.text, cap);
        } else {
          assert whole[..cap] == s.text[..cap];
        }
      }
    }
  }

  // ---------------------------------------------------------------------
  // Cut stability.

  lemma {:induction false} FullLengthStable(src: seq<byte>, ext: seq<byte>, at: nat, base: nat)
    requires at <= |src| && FullLength(src, at, base).Some?
    ensures FullLength(src + ext, at, base) == FullLength(src, at, base)
    decreases |src| - at
  {
    if src[at] == 255 {
      FullLengthStable(src, ext, at + 1, base + 255);
    }
  }

  lemma {:induction false} LengthUpToStable(src: seq<byte>, ext: seq<byte>, at: nat, base: nat, needed: nat)
    requires at <= |src| && LengthUpTo(src, at, base, needed).Some?
    ensures LengthUpTo(src + ext, at, base, needed) == LengthUpTo(src, at, base, needed)
    decreases |src| - at
  {
    if base < needed && src[at] == 255 {
      LengthUpToStable(src, ext, at + 1, base + 255, needed);
    }
  }

  lemma LiteralPartStable(src: seq<byte>, ext: seq<byte>, at: nat, text: seq<byte>, cap: nat)
    requires at < |src| && |text| < cap
    requires var p := LiteralPart(src, at, text, cap); p.Stop? ==> !p.o.atEnd
    ensures LiteralPart(src + ext, at, text, cap) == LiteralPart(src, at, text, cap)
  {
    if src[at] / 16 == 15 {
      FullLengthStable(src, ext, at + 1, 15);
    }
    var (literals, start) := LiteralRun(src, at).value;
    var copied := Min(Min(literals, |src| - start), cap - |text|);
    assert (src + ext)[start..start + copied] == src[start..start + copied];
  }

  lemma MatchPartStable(src: seq<byte>, ext: seq<byte>, nibble: nat, at: nat, text: seq<byte>, cap: nat)
    requires at <= |src| && |text| < cap
    requires var p := MatchPart(src, nibble, at, text, cap); p.Stop? ==> !p.o.atEnd
    ensures MatchPart(src + ext, nibble, at, text, cap) == MatchPart(src, nibble, at, text, cap)
  {
    assert OffsetAt(src + ext, at) == OffsetAt(src, at);
    if 1 <= OffsetAt(src, at) <= |text| && nibble == 15 {
      LengthUpToStable(src, ext, at + 2, 19, cap - |text|);
    }
  }

  /** A decode that did not reach the end of its bytes gives the same
      outcome whatever bytes follow them. */
  lemma {:induction false} RunStable(src: seq<byte>, ext: seq<byte>, at: nat, text: seq<byte>, cap: nat)
    requires at <= |src| && |text| <= cap && !Run(src, at, text, cap).atEnd
    ensures Run(src + ext, at, text, cap) == Run(src, at, text, cap)
    decreases |src| - at
  {
    if |text| < cap {
      var p := LiteralPart(src, at, text, cap);
      LiteralPartStable(src, ext, at, text, cap);
      if p.Go? {
        MatchPartStable(src, ext, src[at] % 16, p.at, p.text, cap);
        var q := MatchPart(src, src[at] % 16, p.at, p.text, cap);
        if q.Go? {
          RunStable(src, ext, q.at, q.text, cap);
        }
      }
    }
  }

  /** Cut stability of the decode of a stored value. */
  lemma PrefixStable(stored: seq<byte>, ext: seq<byte>, cap: nat)
    requires !Prefix(stored, cap).atEnd
    ensures Prefix(stored + ext, cap) == Prefix(stored, cap)
  {
    assert (stored + ext)[SIZE_PREFIX..] == stored[SIZE_PREFIX..] + ext;
    RunStable(stored[SIZE_PREFIX..], ext, 0, [], cap);
  }

  /** A decode that reached the end of its bytes has not filled cap. */
  lemma {:induction false} AtEndIsShort(src: seq<byte>, at: nat, text: seq<byte>, cap: nat)
    requires at <= |src| && |text| <= cap && Run(src, at, text, cap).atEnd
    ensures |Run(src, at, text, cap).text| < cap
    decreases |src| - at
  {
    if at < |src| {
      var p := SequencePart(src, at, text, cap);
      if p.Go? {
        AtEndIsShort(src, p.at, p.text, cap);
      }
    }
  }

  lemma {:induction false} FullLengthCompletes(src: seq<byte>, at: nat, base: nat)
    requires at <= |src| && FullLength(src, at, base).None?
    ensures var r := FullLength(src + [0], at, base); r.Some? && base <= r.value.0 && r.value.1 == |src| + 1
    decreases |src| - at
  {
    if at < |src| {
      FullLengthCompletes(src, at + 1, base + 255);
    }
  }

  lemma {:induction false} LengthUpToCompletes(src: seq<byte>, at: nat, base: nat, needed: nat)
    requires at <= |src| && LengthUpTo(src, at, base, needed).None?
    ensures var r := LengthUpTo(src + [0], at, base, needed); r.Some? && r.value.1 == |src| + 1
    decreases |src| - at
  {
    if at < |src| {
      LengthUpToCompletes(src, at + 1, base + 255, needed);
    }
  }

  // ---------------------------------------------------------------------
  // What bytes that follow can change.

  /** No second byte of an offset whose first is low brings it within n bytes
      of text. */
  predicate NoOffset(low: byte, n: nat) {
    if low == 0 then n < 256 else n < low
  }

  /** The decode runs out of bytes after the first byte of a match's offset,
      and that byte already puts the match before the text. */
  predicate BadOffsetAhead(src: seq<byte>, at: nat, text: seq<byte>, cap: nat)
    requires at <= |src| && |text| <= cap
    decreases |src| - at
  {
    && |text| < cap && at < |src|
    && var p := LiteralPart(src, at, text, cap);
    && p.Go?
    && (p.at + 1 == |src| ==> NoOffset(src[p.at], |p.text|))
    && (p.at + 1 < |src| ==>
          var q := MatchPart(src, src[at] % 16, p.at, p.text, cap);
          q.Go? && BadOffsetAhead(src, q.at, q.text, cap))
  }

  function Zeros(n: nat): (z: seq<byte>)
    ensures |z| == n
  {
    seq(n, _ => 0)
  }

  /** Literals the bytes cut short can be completed, and the block end with
      them. */
  lemma LiteralsComplete(src: seq<byte>, at: nat, text: seq<byte>, cap: nat) returns (ext: seq<byte>)
    requires at < |src| && |text| < cap
    requires var p := LiteralPart(src, at, text, cap); p.Stop? && p.o.atEnd && p.o.error != None
    ensures var p := LiteralPart(src + ext, at, text, cap); p.Stop? && p.o.error == None
  {
    match LiteralRun(src, at) {
      case None =>
        FullLengthCompletes(src, at + 1, 15);
        var zeros := Zeros(FullLength(src + [0], at + 1, 15).value.0);
        ext := [0] + zeros;
        FullLengthStable(src + [0], zeros, at + 1, 15);
        assert src + ext == (src + [0]) + zeros;
      case Some((literals, start)) =>
        ext := Zeros(literals - (|src| - start));
        if src[at] / 16 == 15 {
          FullLengthStable(src, ext, at + 1, 15);
        }
        assert LiteralRun(src + ext, at) == Some((literals, start));
    }
  }

  /** A match whose length the bytes cut short can be completed. */
  lemma LengthCompletes(src: seq<byte>, nibble: nat, at: nat, text: seq<byte>, cap: nat)
    requires at + 2 <= |src| && |text| < cap
    requires var p := MatchPart(src, nibble, at, text, cap); p.Stop? && p.o.atEnd
    ensures var q := MatchPart(src + [0], nibble, at, text, cap); q.Go? && q.at == |src| + 1
  {
    LengthUpToCompletes(src, at + 2, 19, cap - |text|);
    assert OffsetAt(src + [0], at) == OffsetAt(src, at);
  }

  /** A match of whose offset one byte is there can be completed, unless that
      byte alone puts it before the text. */
  lemma OffsetCompletes(src: seq<byte>, nibble: nat, at: nat, text: seq<byte>, cap: nat) returns (ext: seq<byte>)
    requires at + 1 == |src| && |text| < cap && !NoOffset(src[at], |text|)
    ensures var q := MatchPart(src + ext, nibble, at, text, cap); q.Go? && q.at == |src + ext|
  {
    var high: byte := if src[at] == 0 then 1 else 0;
    ext := [high];
    assert OffsetAt(src + [high], at) == src[at] + 256 * high;
    if nibble == 15 && 19 < cap - |text| {
      ext := [high, 0];
      assert (src + ext)[at + 2] == 0 && OffsetAt(src + ext, at) == src[at] + 256 * high;
    }
  }

  /** The next sequence, when its halves are known. */
  lemma RunPast(src: seq<byte>, at: nat, text: seq<byte>, cap: nat)
    requires at < |src| && |text| < cap
    ensures var p := LiteralPart(src, at, text, cap);
            if p.Stop? then Run(src, at, text, cap) == p.o
            else
              var q := MatchPart(src, src[at] % 16, p.at, p.text, cap);
              Run(src, at, text, cap) == if q.Stop? then q.o else Run(src, q.at, q.text, cap)
  {
    hide LiteralPart, MatchPart;
  }

  /** Where the sequence ends the bytes, the decode has no error. */
  lemma RunToEnd(src: seq<byte>, text: seq<byte>, cap: nat)
    requires |text| <= cap
    ensures Run(src, |src|, text, cap).error == None
  {
  }

  /** Whether a stored value decodes can change with some bytes that follow,
      which are returned, when its decode reached the end of its bytes, and
      not after the first byte of an offset that is bad already. */
  lemma {:induction false} RunExtends(src: seq<byte>, at: nat, text: seq<byte>, cap: nat) returns (ext: seq<byte>)
    requires at <= |src| && |text| <= cap && Run(src, at, text, cap).atEnd && !BadOffsetAhead(src, at, text, cap)
    ensures Run(src + ext, at, text, cap).error == None <==> Run(src, at, text, cap).error != None
    decreases |src| - at, 1
  {
    if at == |src| {
      ext := [0, 0, 0];
      BlockGoesOn(src, text, cap);
      return;
    }
    hide *;
    RunPast(src, at, text, cap);
    var p := LiteralPart(src, at, text, cap);
    if p.Stop? {
      if p.o.error != None {
        ext := LiteralsComplete(src, at, text, cap);
      } else {
        ext := EndExtends(src, at, text, cap);
      }
      RunPast(src + ext, at, text, cap);
    } else {
      ext := MatchExtends(src, at, text, cap, p.at, p.text);
    }
  }

  /** The same from a sequence whose literals are whole. */
  lemma {:induction false} MatchExtends(src: seq<byte>, at: nat, text: seq<byte>, cap: nat, mid: nat, text1: seq<byte>)
    returns (ext: seq<byte>)
    requires at < |src| && |text| < cap && LiteralPart(src, at, text, cap) == Go(mid, text1)
    requires Run(src, at, text, cap).atEnd && !BadOffsetAhead(src, at, text, cap)
    ensures Run(src + ext, at, text, cap).error == None <==> Run(src, at, text, cap).error != None
    decreases |src| - at, 0
  {
    var nibble := src[at] % 16;
    RunPast(src, at, text, cap);
    var q := MatchPart(src, nibble, mid, text1, cap);
    if q.Go? {
      ext := RunExtends(src, q.at, q.text, cap);
      MatchPartStable(src, ext, nibble, mid, text1, cap);
    } else if mid + 1 == |src| {
      ext := OffsetCompletes(src, nibble, mid, text1, cap);
      RunToEnd(src + ext, MatchPart(src + ext, nibble, mid, text1, cap).text, cap);
    } else {
      ext := [0];
      LengthCompletes(src, nibble, mid, text1, cap);
      RunToEnd(src + ext, MatchPart(src + ext, nibble, mid, text1, cap).text, cap);
    }
    LiteralPartStable(src, ext, at, text, cap);
    RunPast(src + ext, at, text, cap);
    hide LiteralPart, MatchPart, Run, BadOffsetAhead;
    assert (src + ext)[at] == src[at];
  }

  /** After a whole block a match without text before it is an error. */
  lemma BlockGoesOn(src: seq<byte>, text: seq<byte>, cap: nat)
    requires |text| < cap
    ensures Run(src + [0, 0, 0], |src|, text, cap).error != None
  {
    var all := src + [0, 0, 0];
    RunPast(all, |src|, text, cap);
    assert LiteralRun(all, |src|) == Some((0, |src| + 1));
    assert text + all[|src| + 1..|src| + 1] == text;
    assert LiteralPart(all, |src|, text, cap) == Go(|src| + 1, text);
    assert OffsetAt(all, |src| + 1) == 0;
  }

  /** A block that ended after literals goes on when a match follows them. */
  lemma EndExtends(src: seq<byte>, at: nat, text: seq<byte>, cap: nat) returns (ext: seq<byte>)
    requires at < |src| && |text| < cap
    requires var p := LiteralPart(src, at, text, cap); p.Stop? && p.o.atEnd && p.o.error == None
    ensures var p := LiteralPart(src + ext, at, text, cap);
            && p.Go?
            && var q := MatchPart(src + ext, (src + ext)[at] % 16, p.at, p.text, cap);
            q.Stop? && q.o.error != None
  {
    var (literals, start) := LiteralRun(src, at).value;
    ext := [0, 0];
    if src[at] / 16 == 15 {
      FullLengthStable(src, ext, at + 1, 15);
    }
    assert LiteralRun(src + ext, at) == Some((literals, start));
    assert (src + ext)[start..|src|] == src[start..|src|];
    assert OffsetAt(src + ext, |src|) == 0;
  }

  /** An offset whose first byte is bad is bad with any byte after it. */
  lemma {:induction false} BadOffsetStays(src: seq<byte>, ext: seq<byte>, at: nat, text: seq<byte>, cap: nat)
    requires at <= |src| && |text| <= cap && BadOffsetAhead(src, at, text, cap)
    ensures Run(src, at, text, cap).atEnd && Run(src + ext, at, text, cap).error != None
    decreases |src| - at
  {
    hide LiteralPart, Run, CopyMatch, PartialMatchLength;
    RunPast(src, at, text, cap);
    RunPast(src + ext, at, text, cap);
    LiteralPartStable(src, ext, at, text, cap);
    var p := LiteralPart(src, at, text, cap);
    assert (src + ext)[at] == src[at];
    if p.at + 1 == |src| {
      if ext != [] {
        var low: int, high: int := src[p.at], ext[0];
        assert OffsetAt(src + ext, p.at) == low + 256 * high;
      } else {
        assert src + ext == src;
      }
    } else {
      var q := MatchPart(src, src[at] % 16, p.at, p.text, cap);
      MatchPartStable(src, ext, src[at] % 16, p.at, p.text, cap);
      BadOffsetStays(src, ext, q.at, q.text, cap);
    }
  }

  // ---------------------------------------------------------------------
  // What a short text costs.

  /** Literals that leave room in a short text take two bytes beside them. */
  lemma LiteralsAreShort(src: seq<byte>, at: nat, text: seq<byte>, cap: nat)
    requires at < |src| && |text| < cap <= NAME_PREFIX_BYTES
    ensures var p := LiteralPart(src, at, text, cap);
            && (p.Go? ==> p.at <= at + 2 + |p.text| - |text|)
            && (p.Stop? && p.o.error == None && p.o.atEnd ==> |src| <= at + 2 + cap - |text|)
  {
    if src[at] / 16 == 15 && at + 1 < |src| && src[at + 1] == 255 {
      FullLengthSize(src, at + 1, 15);
    }
  }

  /** A match that leaves room in a short text takes three bytes, and gives
      four bytes of text; it runs out of bytes within those three. */
  lemma MatchIsShort(src: seq<byte>, nibble: nat, at: nat, text: seq<byte>, cap: nat)
    requires at <= |src| && |text| < cap <= NAME_PREFIX_BYTES
    ensures var q := MatchPart(src, nibble, at, text, cap);
            && (q.Go? && |q.text| < cap ==> q.at <= at + 3 && |q.text| >= |text| + 4)
            && (q.Stop? && q.o.atEnd ==> |src| <= at + 2)
  {
    if at + 2 < |src| {
      OneLengthByte(src, at + 2, 19, cap - |text|);
    }
  }

  /** A length that covers what is needed with one byte takes no more. */
  lemma OneLengthByte(src: seq<byte>, at: nat, base: nat, needed: nat)
    requires at < |src| && needed <= base + 255
    ensures var r := LengthUpTo(src, at, base, needed); r.Some? && r.value.1 <= at + 1
  {
    if src[at] == 255 {
      assert LengthUpTo(src, at + 1, base + 255, needed) == Some((base + 255, at + 1));
    }
  }

  /** A length is 255 for each byte read but the last, and more. */
  lemma {:induction false} FullLengthSize(src: seq<byte>, at: nat, base: nat)
    requires at <= |src|
    ensures var r := FullLength(src, at, base); r.Some? ==> r.value.1 > at && r.value.0 >= base + 255 * (r.value.1 - at - 1)
    decreases |src| - at
  {
    if at < |src| && src[at] == 255 {
      FullLengthSize(src, at + 1, base + 255);
    }
  }

  /** A length that did not end in src ends after it. */
  lemma {:induction false} FullLengthGoesOn(src: seq<byte>, rest: seq<byte>, at: nat, base: nat)
    requires at <= |src| && FullLength(src, at, base).None?
    ensures var r := FullLength(src + rest, at, base); r.Some? ==> r.value.1 > |src|
    decreases |src| - at
  {
    if at < |src| {
      FullLengthGoesOn(src, rest, at + 1, base + 255);
    } else {
      FullLengthSize(src + rest, at, base);
    }
  }

  /** A decode that reached the end of more bytes than a short text takes
      stands in a run of literals that the bytes cut short: at src[k..], with
      the text t before it. Its matches cost little. */
  lemma {:induction false} CutInLiterals(src: seq<byte>, at: nat, text: seq<byte>, cap: nat) returns (k: nat, t: seq<byte>)
    requires at <= |src| && |text| <= cap <= NAME_PREFIX_BYTES && Run(src, at, text, cap).atEnd
    requires |src| - at > 2 * (cap - |text|) + 3
    ensures at <= k < |src| && |text| <= |t| < cap && k - at <= 2 * (|t| - |text|)
    ensures Run(src, at, text, cap) == Run(src, k, t, cap)
    ensures var p := LiteralPart(src, k, t, cap); p.Stop? && p.o.atEnd && p.o.error != None
    ensures !BadOffsetAhead(src, at, text, cap)
    decreases |src| - at
  {
    hide LiteralPart, MatchPart;
    RunPast(src, at, text, cap);
    LiteralsAreShort(src, at, text, cap);
    var p := LiteralPart(src, at, text, cap);
    if p.Stop? {
      return at, text;
    }
    MatchIsShort(src, src[at] % 16, p.at, p.text, cap);
    var q := MatchPart(src, src[at] % 16, p.at, p.text, cap);
    k, t := CutInLiterals(src, q.at, q.text, cap);
  }

  /** The run announced at src[k], where the bytes cut its literals short
      before cap bytes of text, is as long as almost all bytes after src[k]
      being length bytes makes it. */
  lemma RunIsLong(src: seq<byte>, k: nat, t: seq<byte>, cap: nat, rest: seq<byte>)
    requires k < |src| && |t| < cap
    requires var p := LiteralPart(src, k, t, cap); p.Stop? && p.o.atEnd && p.o.error != None
    requires |src| - k >= cap + 300
    ensures var r := LiteralRun(src + rest, k); r.Some? ==> r.value.0 >= 255 * (|src| - k - 2 - cap)
  {
    assert (src + rest)[k] == src[k];
    match LiteralRun(src, k) {
      case None =>
        FullLengthGoesOn(src, rest, k + 1, 15);
        FullLengthSize(src + rest, k + 1, 15);
      case Some((literals, start)) =>
        if src[k] / 16 == 15 {
          FullLengthStable(src, rest, k + 1, 15);
          FullLengthSize(src, k + 1, 15);
        }
    }
  }

  // ---------------------------------------------------------------------
  // The name decision.

  /** The answers decodeName gives for lz4: a name, or one of its two kinds of
      damage. */
  datatype NameAnswer = Name(name: seq<byte>) | NeedsMoreStored | DoesNotDecode

  function DecodeName(stored: seq<byte>, cut: bool): NameAnswer {
    var o := Prefix(stored, NAME_PREFIX_BYTES);
    if cut && o.atEnd && (o.error.Some? || |o.text| < NAME_PREFIX_BYTES) then NeedsMoreStored
    else if o.error == None then Name(o.text)
    else DoesNotDecode
  }

  /** A cut value whose answer is not "more stored bytes" gets the answer
      its whole stored bytes give. */
  lemma NameOfCutValue(stored: seq<byte>, rest: seq<byte>)
    requires DecodeName(stored, true) != NeedsMoreStored
    ensures DecodeName(stored, true) == DecodeName(stored + rest, false)
  {
    if |stored| > SIZE_PREFIX && Prefix(stored, NAME_PREFIX_BYTES).atEnd {
      AtEndIsShort(stored[SIZE_PREFIX..], 0, [], NAME_PREFIX_BYTES);
    }
    PrefixStable(stored, rest, NAME_PREFIX_BYTES);
  }

  /** The most stored bytes the name search reads of a value. */
  const NAME_STORED_LIMIT := 129 * 1024

  /** The answer for a whole stored value, of which the name search reads no
      more than its limit. */
  function NameOf(whole: seq<byte>): NameAnswer {
    DecodeName(whole[..Min(|whole|, NAME_STORED_LIMIT)], |whole| > NAME_STORED_LIMIT)
  }

  /** "More stored bytes" is answered for a cut value exactly when the bytes
      that are missing could change what it gives. */
  lemma CutDamageIsExact(stored: seq<byte>)
    requires |stored| == NAME_STORED_LIMIT
    ensures DecodeName(stored, true) == NeedsMoreStored <==>
            exists rest: seq<byte> :: DecodeName(stored + rest, false) != DecodeName(stored, false)
  {
    if DecodeName(stored, true) == NeedsMoreStored {
      var rest := AnswerChanges(stored);
    } else {
      assert stored + [] == stored;
      NameOfCutValue(stored, []);
      forall rest: seq<byte>
        ensures DecodeName(stored + rest, false) == DecodeName(stored, false)
      {
        NameOfCutValue(stored, rest);
      }
    }
    hide DecodeName;
  }

  /** The name search gives the answer of the whole value, or asks for more of
      it, and then other values that begin as it does have another answer. */
  lemma NameIsOfWhole(whole: seq<byte>)
    ensures NameOf(whole) == DecodeName(whole, false)
            || (|whole| > NAME_STORED_LIMIT && NameOf(whole) == NeedsMoreStored
                && exists rest: seq<byte> ::
                     DecodeName(whole[..NAME_STORED_LIMIT] + rest, false) != DecodeName(whole[..NAME_STORED_LIMIT], false))
  {
    if |whole| > NAME_STORED_LIMIT {
      var stored := whole[..NAME_STORED_LIMIT];
      assert stored + whole[NAME_STORED_LIMIT..] == whole;
      CutDamageIsExact(stored);
      if NameOf(whole) != NeedsMoreStored {
        NameOfCutValue(stored, whole[NAME_STORED_LIMIT..]);
      }
    } else {
      assert whole[..|whole|] == whole;
    }
    hide DecodeName;
  }

  /** Where more stored bytes are needed the decode stands at src[k..], in a
      run of literals longer than 32 MiB however the bytes go on. Matches do
      not bring it there. */
  lemma OnlyLongRunsNeedMore(stored: seq<byte>) returns (k: nat, t: seq<byte>)
    requires |stored| == NAME_STORED_LIMIT && DecodeName(stored, true) == NeedsMoreStored
    ensures var src := stored[SIZE_PREFIX..];
            && k < |src| && |t| < NAME_PREFIX_BYTES && k <= 2 * |t|
            && Run(src, 0, [], NAME_PREFIX_BYTES) == Run(src, k, t, NAME_PREFIX_BYTES)
            && (forall rest: seq<byte> ::
                  LiteralRun(src + rest, k).Some? ==> LiteralRun(src + rest, k).value.0 > 33554432)
  {
    var src := stored[SIZE_PREFIX..];
    NamedIfDecoded(stored, src);
    k, t := CutInLiterals(src, 0, [], NAME_PREFIX_BYTES);
    forall rest: seq<byte> | LiteralRun(src + rest, k).Some?
      ensures LiteralRun(src + rest, k).value.0 > 33554432
    {
      RunIsLong(src, k, t, NAME_PREFIX_BYTES, rest);
    }
    hide Run, LiteralRun, LiteralPart, DecodeName;
  }

  /** A value gives a name exactly when its block decodes without an error. */
  lemma NamedIfDecoded(stored: seq<byte>, src: seq<byte>)
    requires |stored| == SIZE_PREFIX + |src| && stored[SIZE_PREFIX..] == src
    ensures DecodeName(stored, false).Name? <==> src != [] && Run(src, 0, [], NAME_PREFIX_BYTES).error == None
    ensures DecodeName(stored, true) == NeedsMoreStored && src != [] ==> Run(src, 0, [], NAME_PREFIX_BYTES).atEnd
  {
    hide Run;
  }

  /** The block of a longer stored value. */
  lemma BlockAfter(stored: seq<byte>, rest: seq<byte>)
    requires |stored| >= SIZE_PREFIX
    ensures (stored + rest)[SIZE_PREFIX..] == stored[SIZE_PREFIX..] + rest
  {
  }

  /** Bytes after which the answer is another one. */
  lemma AnswerChanges(stored: seq<byte>) returns (rest: seq<byte>)
    requires |stored| == NAME_STORED_LIMIT && DecodeName(stored, true) == NeedsMoreStored
    ensures DecodeName(stored + rest, false) != DecodeName(stored, false)
  {
    assert SIZE_PREFIX == 8 && NAME_PREFIX_BYTES == 65 && NAME_STORED_LIMIT == 132096;
    hide *;
    var src := stored[SIZE_PREFIX..];
    NamedIfDecoded(stored, src);
    var k, t := CutInLiterals(src, 0, [], NAME_PREFIX_BYTES);
    rest := RunExtends(src, 0, [], NAME_PREFIX_BYTES);
    BlockAfter(stored, rest);
    NamedIfDecoded(stored + rest, src + rest);
  }
}

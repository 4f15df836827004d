/** Decomposition of a signed YAML stream into payload and signature carrier. */
module Framing {
  import opened Wrappers
  import opened Utf8

  const LF: byte := 0x0A
  const CR: byte := 0x0D
  const DASH: byte := 0x2D

  datatype PayloadError = InvalidUtf8 | BomAtOffset0 | MissingTrailingLineTerminator

  predicate BomAtZero(s: seq<byte>) {
    |s| >= 3 && s[0] == 0xEF && s[1] == 0xBB && s[2] == 0xBF
  }

  function ValidatePayloadStream(payload: seq<byte>): Result<(), PayloadError> {
    if !Valid(payload) then Err(InvalidUtf8)
    else if BomAtZero(payload) then Err(BomAtOffset0)
    else if payload == [] then Ok(())
    else if payload[|payload| - 1] != LF then Err(MissingTrailingLineTerminator)
    else Ok(())
  }

  predicate IsLineStart(s: seq<byte>, i: nat) {
    i == 0 || (i <= |s| && s[i - 1] == LF)
  }

  /** The length of the constrained marker at `i`: three dashes starting a line, then LF or CRLF. */
  function MarkerLength(s: seq<byte>, i: nat): Option<nat> {
    if i + 3 > |s| then None
    else if s[i] != DASH || s[i + 1] != DASH || s[i + 2] != DASH then None
    else if !IsLineStart(s, i) then None
    else if i + 3 >= |s| then None
    else if s[i + 3] == LF then Some(4)
    else if s[i + 3] == CR && i + 5 <= |s| && s[i + 4] == LF then Some(5)
    else None
  }

  predicate MarkerAt(s: seq<byte>, i: nat) {
    MarkerLength(s, i).Some?
  }

  /** The greatest marker position below `n`, found by looking at every position. */
  function LastMarkerBelow(s: seq<byte>, n: nat): (r: Option<nat>)
    ensures r.Some? ==> r.value < n && MarkerAt(s, r.value) && forall i :: r.value < i < n ==> !MarkerAt(s, i)
    ensures r.None? ==> forall i :: 0 <= i < n ==> !MarkerAt(s, i)
  {
    if n == 0 then None else if MarkerAt(s, n - 1) then Some(n - 1) else LastMarkerBelow(s, n - 1)
  }

  function LastMarker(s: seq<byte>): Option<nat> {
    LastMarkerBelow(s, |s|)
  }

  lemma LastMarkerIs(s: seq<byte>, m: nat)
    requires m < |s| && MarkerAt(s, m) && forall i :: m < i < |s| ==> !MarkerAt(s, i)
    ensures LastMarker(s) == Some(m)
  {
  }

  lemma LastMarkerBelowIs(s: seq<byte>, m: nat, n: nat)
    requires m < n && MarkerAt(s, m) && forall i :: m < i < n ==> !MarkerAt(s, i)
    ensures LastMarkerBelow(s, n) == Some(m)
  {
  }

  /** No marker begins inside another one, so a scan may skip over those it finds. */
  lemma MarkersDisjoint(s: seq<byte>, i: nat, k: nat)
    requires MarkerAt(s, i) && i < k < i + MarkerLength(s, i).value
    ensures !MarkerAt(s, k)
  {
  }

  method FindLastMarker(s: seq<byte>) returns (r: Option<nat>)
    ensures r == LastMarker(s)
  {
    r := None;
    var i := 0;
    while i < |s|
      invariant i <= |s|
      invariant r == LastMarkerBelow(s, i)
    {
      var length := MarkerLength(s, i);
      if length.Some? {
        r := Some(i);
        forall k | i < k < i + length.value
          ensures !MarkerAt(s, k)
        {
          MarkersDisjoint(s, i, k);
        }
        LastMarkerBelowIs(s, i, i + length.value);
        i := i + length.value;
      } else {
        i := i + 1;
      }
    }
  }

  /** Byte ranges are given by their bounds. */
  datatype Ranges = Ranges(payloadEnd: nat, carrierStart: nat, end: nat)

  datatype Decomposition = Unsigned | Malformed | Signed(ranges: Ranges)

  function DecomposeArtifact(artifact: seq<byte>): Decomposition {
    if !Valid(artifact) || BomAtZero(artifact) then Malformed
    else if artifact == [] then Unsigned
    else match LastMarker(artifact)
      case None => Unsigned
      case Some(m) =>
        match MarkerLength(artifact, m)
        case None => Malformed
        case Some(length) =>
          if m + length > |artifact| then Malformed
          else if m + length == |artifact| then Malformed
          else Signed(Ranges(m, m + length, |artifact|))
  }

  method Decompose(artifact: seq<byte>) returns (r: Decomposition)
    ensures r == DecomposeArtifact(artifact)
  {
    if !Valid(artifact) || BomAtZero(artifact) {
      return Malformed;
    }
    if artifact == [] {
      return Unsigned;
    }
    var found := FindLastMarker(artifact);
    if found.None? {
      return Unsigned;
    }
    var length := MarkerLength(artifact, found.value);
    if length.None? {
      return Malformed;
    }
    var t := found.value + length.value;
    if t > |artifact| {
      return Malformed;
    }
    if t == |artifact| {
      return Malformed;
    }
    return Signed(Ranges(found.value, t, |artifact|));
  }

  /** The two defensive exits after the scan are never taken. */
  lemma DefensiveExitsUnreachable(artifact: seq<byte>, m: nat)
    requires LastMarker(artifact) == Some(m)
    ensures MarkerLength(artifact, m).Some? && m + MarkerLength(artifact, m).value <= |artifact|
  {
  }

  predicate EndsWithMarker(s: seq<byte>) {
    exists m | 0 <= m < |s| :: MarkerAt(s, m) && m + MarkerLength(s, m).value == |s|
  }

  predicate MarkerFree(s: seq<byte>) {
    forall i :: 0 <= i < |s| ==> !MarkerAt(s, i)
  }

  function MarkerLine(crlf: bool): seq<byte> {
    if crlf then [DASH, DASH, DASH, CR, LF] else [DASH, DASH, DASH, LF]
  }

  function Wrap(payload: seq<byte>, crlf: bool, carrier: seq<byte>): seq<byte> {
    payload + MarkerLine(crlf) + carrier
  }

  predicate ProperCarrier(carrier: seq<byte>) {
    carrier != [] && Valid(carrier) && MarkerFree(carrier)
  }

  // Every signed outcome is well formed.

  lemma SuffixMarkers(s: seq<byte>, t: nat, i: nat)
    requires 0 < t <= |s| && s[t - 1] == LF
    ensures MarkerAt(s[t..], i) <==> MarkerAt(s, t + i)
  {
  }

  lemma MarkerIsLine(artifact: seq<byte>, m: nat)
    requires MarkerAt(artifact, m)
    ensures var n := MarkerLength(artifact, m).value;
      m + n <= |artifact| && artifact[m..m + n] == MarkerLine(n == 5)
  {
  }

  lemma PayloadBeforeMarker(artifact: seq<byte>, m: nat)
    requires Valid(artifact) && !BomAtZero(artifact) && m < |artifact|
      && artifact[m] == DASH && IsLineStart(artifact, m)
    ensures ValidatePayloadStream(artifact[..m]) == Ok(())
  {
    assert artifact == artifact[..m] + artifact[m..];
    assert Valid(artifact[..m]) by {
      ValidCut(artifact[..m], artifact[m..]);
    }
    hide Valid;
  }

  /** The text before a marker is a payload, and the text after it is valid UTF-8. */
  lemma MarkerSplits(artifact: seq<byte>, m: nat)
    requires Valid(artifact) && !BomAtZero(artifact) && MarkerAt(artifact, m)
    ensures var t := m + MarkerLength(artifact, m).value;
      && t <= |artifact| && artifact[t - 1] == LF
      && ValidatePayloadStream(artifact[..m]) == Ok(())
      && Valid(artifact[t..])
  {
    hide Valid, ValidatePayloadStream;
    var t := m + MarkerLength(artifact, m).value;
    PayloadBeforeMarker(artifact, m);
    ValidTextAfterLf(artifact, t);
  }

  lemma CarrierMarkerFree(artifact: seq<byte>, m: nat)
    requires LastMarker(artifact) == Some(m)
    ensures var t := m + MarkerLength(artifact, m).value;
      t <= |artifact| && MarkerFree(artifact[t..])
  {
    var t := m + MarkerLength(artifact, m).value;
    assert forall i :: m < i < |artifact| ==> !MarkerAt(artifact, i);
    forall i | 0 <= i < |artifact[t..]|
      ensures !MarkerAt(artifact[t..], i)
    {
      SuffixMarkers(artifact, t, i);
      assert !MarkerAt(artifact, t + i);
    }
  }

  /** A signed artifact is its payload, one marker line and its carrier, and each part is proper. */
  lemma SignedIsWrapped(artifact: seq<byte>)
    requires DecomposeArtifact(artifact).Signed?
    ensures var r := DecomposeArtifact(artifact).ranges;
      && r.payloadEnd < r.carrierStart < r.end == |artifact|
      && var payload, carrier := artifact[..r.payloadEnd], artifact[r.carrierStart..];
      && artifact == Wrap(payload, r.carrierStart - r.payloadEnd == 5, carrier)
      && ValidatePayloadStream(payload) == Ok(())
      && ProperCarrier(carrier)
  {
    hide Valid, MarkerFree, ValidatePayloadStream;
    var r := DecomposeArtifact(artifact).ranges;
    var m, t := r.payloadEnd, r.carrierStart;
    MarkerSplits(artifact, m);
    MarkerIsLine(artifact, m);
    CarrierMarkerFree(artifact, m);
    assert artifact == artifact[..m] + artifact[m..t] + artifact[t..];
  }

  lemma {:induction false} ValidTextAfterLf(s: seq<byte>, t: nat)
    requires Valid(s) && 0 < t <= |s| && s[t - 1] == LF
    ensures Valid(s[t..])
  {
    var a, b := s[..t - 1], s[t - 1..];
    assert s == a + b;
    ValidCut(a, b);
    assert b[1..] == s[t..];
  }

  lemma FinalMarkerIsLast(s: seq<byte>, m: nat)
    requires MarkerAt(s, m) && m + MarkerLength(s, m).value == |s|
    ensures LastMarker(s) == Some(m)
  {
    forall k | m < k < |s|
      ensures !MarkerAt(s, k)
    {
      MarkersDisjoint(s, m, k);
    }
    LastMarkerIs(s, m);
  }

  /** Each outcome, by what the artifact contains: a final marker with no carrier is malformed. */
  lemma OutcomeIs(artifact: seq<byte>)
    ensures DecomposeArtifact(artifact).Malformed?
      <==> !Valid(artifact) || BomAtZero(artifact) || EndsWithMarker(artifact)
    ensures DecomposeArtifact(artifact).Unsigned?
      <==> Valid(artifact) && !BomAtZero(artifact) && MarkerFree(artifact)
  {
    hide Valid, BomAtZero;
    if EndsWithMarker(artifact) {
      var m: nat :| m < |artifact| && MarkerAt(artifact, m) && m + MarkerLength(artifact, m).value == |artifact|;
      FinalMarkerIsLast(artifact, m);
    }
    if LastMarker(artifact).Some? {
      DefensiveExitsUnreachable(artifact, LastMarker(artifact).value);
    }
  }

  // Every proper layer decomposes.

  lemma WrapMarker(payload: seq<byte>, crlf: bool, carrier: seq<byte>)
    requires payload != [] ==> payload[|payload| - 1] == LF
    ensures MarkerLength(Wrap(payload, crlf, carrier), |payload|) == Some(|MarkerLine(crlf)|)
  {
    var artifact, line := Wrap(payload, crlf, carrier), MarkerLine(crlf);
    assert forall k :: 0 <= k < |line| ==> artifact[|payload| + k] == line[k];
    assert payload != [] ==> artifact[|payload| - 1] == LF;
  }

  lemma WrapMarkers(payload: seq<byte>, crlf: bool, carrier: seq<byte>, i: nat)
    requires payload != [] ==> payload[|payload| - 1] == LF
    ensures var artifact := Wrap(payload, crlf, carrier);
      var t := |payload| + |MarkerLine(crlf)|;
      && (|payload| < i < t ==> !MarkerAt(artifact, i))
      && (t <= i ==> (MarkerAt(artifact, i) <==> MarkerAt(carrier, i - t)))
  {
    var artifact := Wrap(payload, crlf, carrier);
    var t := |payload| + |MarkerLine(crlf)|;
    WrapMarker(payload, crlf, carrier);
    assert artifact[t..] == carrier && artifact[t - 1] == LF;
    hide Wrap, MarkerLength, MarkerLine;
    if |payload| < i < t {
      MarkersDisjoint(artifact, |payload|, i);
    } else if t <= i {
      SuffixMarkers(artifact, t, i - t);
    }
  }

  lemma WrapValid(payload: seq<byte>, crlf: bool, carrier: seq<byte>)
    requires ValidatePayloadStream(payload) == Ok(())
    ensures Valid(Wrap(payload, crlf, carrier)) <==> Valid(carrier)
    ensures !BomAtZero(Wrap(payload, crlf, carrier))
  {
    var line := MarkerLine(crlf);
    var artifact := Wrap(payload, crlf, carrier);
    MarkerLineValid(crlf);
    ValidConcat(payload, line);
    if Valid(carrier) {
      ValidConcat(payload + line, carrier);
    }
    if Valid(artifact) {
      var t := |payload| + |line|;
      assert artifact[t - 1] == LF && artifact[t..] == carrier;
      ValidTextAfterLf(artifact, t);
    }
    if payload != [] && |payload| < 3 {
      assert CharLength(payload) > 0;
      assert payload[0] != 0xEF;
    }
  }

  lemma MarkerLineValid(crlf: bool)
    ensures Valid(MarkerLine(crlf))
  {
    var line := MarkerLine(crlf);
    assert Valid(line[4..]);
    assert line[3..][1..] == line[4..] && line[2..][1..] == line[3..] && line[1..][1..] == line[2..];
    assert Valid(line[3..]) && Valid(line[2..]) && Valid(line[1..]);
  }

  /** Wrapping and decomposing are inverse exactly when the carrier is proper. */
  lemma WrapDecomposes(payload: seq<byte>, crlf: bool, carrier: seq<byte>)
    requires ValidatePayloadStream(payload) == Ok(())
    ensures var t := |payload| + |MarkerLine(crlf)|;
      DecomposeArtifact(Wrap(payload, crlf, carrier)) == Signed(Ranges(|payload|, t, t + |carrier|))
      <==> ProperCarrier(carrier)
  {
    var artifact := Wrap(payload, crlf, carrier);
    var t := |payload| + |MarkerLine(crlf)|;
    WrapValid(payload, crlf, carrier);
    WrapMarker(payload, crlf, carrier);
    hide Valid, BomAtZero, MarkerLength, IsLineStart, LastMarkerBelow, ValidatePayloadStream;
    if ProperCarrier(carrier) {
      forall i | |payload| < i < |artifact|
        ensures !MarkerAt(artifact, i)
      {
        WrapMarkers(payload, crlf, carrier, i);
      }
      LastMarkerIs(artifact, |payload|);
    }
    if DecomposeArtifact(artifact).Signed? {
      SignedIsWrapped(artifact);
      assert artifact[t..] == carrier;
    }
  }

  // Layers.

  datatype Layer = Layer(crlf: bool, carrier: seq<byte>)

  predicate ProperLayer(layer: Layer) {
    ProperCarrier(layer.carrier) && layer.carrier[|layer.carrier| - 1] == LF
  }

  function WrapAll(payload: seq<byte>, layers: seq<Layer>): seq<byte> {
    if layers == [] then payload
    else
      var n := |layers| - 1;
      Wrap(WrapAll(payload, layers[..n]), layers[n].crlf, layers[n].carrier)
  }

  /** Decomposes `n` times, collecting carriers from the outermost inwards. */
  function Peel(artifact: seq<byte>, n: nat): Option<(seq<byte>, seq<seq<byte>>)> {
    if n == 0 then Some((artifact, []))
    else match DecomposeArtifact(artifact)
      case Signed(r) =>
        if !(r.payloadEnd <= |artifact| && r.carrierStart <= |artifact|) then None
        else
          (match Peel(artifact[..r.payloadEnd], n - 1)
           case None => None
           case Some((payload, carriers)) => Some((payload, [artifact[r.carrierStart..]] + carriers)))
      case _ => None
  }

  function CarriersReversed(layers: seq<Layer>): seq<seq<byte>> {
    if layers == [] then []
    else [layers[|layers| - 1].carrier] + CarriersReversed(layers[..|layers| - 1])
  }

  lemma {:induction false} LayersArePayload(payload: seq<byte>, layers: seq<Layer>)
    requires ValidatePayloadStream(payload) == Ok(()) && forall layer :: layer in layers ==> ProperLayer(layer)
    ensures ValidatePayloadStream(WrapAll(payload, layers)) == Ok(())
  {
    if layers != [] {
      var n := |layers| - 1;
      LayersArePayload(payload, layers[..n]);
      assert layers[n] in layers;
      WrapValid(WrapAll(payload, layers[..n]), layers[n].crlf, layers[n].carrier);
    }
  }

  /** Repeated decomposition peels the carriers in reverse order and ends at the payload. */
  lemma {:induction false} LayersPeel(payload: seq<byte>, layers: seq<Layer>)
    requires ValidatePayloadStream(payload) == Ok(()) && forall layer :: layer in layers ==> ProperLayer(layer)
    ensures Peel(WrapAll(payload, layers), |layers|) == Some((payload, CarriersReversed(layers)))
  {
    hide DecomposeArtifact, ProperCarrier, ValidatePayloadStream;
    if layers != [] {
      var n := |layers| - 1;
      var inner := WrapAll(payload, layers[..n]);
      var artifact := WrapAll(payload, layers);
      assert layers[n] in layers;
      LayersArePayload(payload, layers[..n]);
      WrapDecomposes(inner, layers[n].crlf, layers[n].carrier);
      LayersPeel(payload, layers[..n]);
      assert artifact[..|inner|] == inner;
      assert artifact[|inner| + |MarkerLine(layers[n].crlf)|..] == layers[n].carrier;
    }
  }
}

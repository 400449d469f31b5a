/** The console tool (`live_capture.py`): every sniffed packet becomes one
    feature row, which is scaled, classified and decoded on its own; a
    packet whose label is not `BENIGN` is reported with its IP addresses.
    `AttributeError` and `IndexError` are swallowed (the packet is skipped);
    any other exception ends the capture. */
module LiveCapture {
  import opened Common
  import opened Seqs
  import opened Frames
  import opened Packets
  import opened Features
  import Labels
  import Models

  const TotalLengthColumn: string := "Total Length of Fwd Packets"
  const MaxLengthColumn: string := "Fwd Packet Length Max"
  const MeanLengthColumn: string := "Fwd Packet Length Mean"

  /** What the tool loads at start-up (lines 8-16). */
  datatype CaptureAssets = CaptureAssets(
    classifier: Models.Predictor,
    scaler: Models.Scaler,
    classes: seq<string>,
    schema: seq<string>)

  /** What handling one packet amounts to: nothing printed, the packet
      skipped after a swallowed exception, an alert line, or an exception
      that escapes `process_packet` and ends `sniff`. */
  datatype Outcome =
    | Quiet
    | Skipped(reason: Error)
    | Alert(category: string, src: string, dst: string)
    | Crash(error: Error)

  /** The exceptions of line 61: Scapy's `AttributeError` for a missing
      field and `IndexError` for a missing layer. */
  predicate Caught(e: Error) {
    e.MissingAttribute? || e.MissingLayer?
  }

  /** Lines 29-44 as written: the shared part of the row, then, for a TCP or
      UDP packet, `packet[TCP]` / `packet[UDP]`. Only `sniff` is imported
      from Scapy, so those names are undefined and raise `NameError`. */
  function ExtractAsWritten(p: Packet, schema: seq<string>): (res: Result<Dict>)
    ensures res.Ok? <==> (!HasTCP(p) && !HasUDP(p) && BaseRow(p, schema).Ok?)
    ensures HasTCP(p) ==> res == Err(UndefinedName("TCP"))
    ensures !HasTCP(p) && HasUDP(p) ==> res == Err(UndefinedName("UDP"))
    ensures res.Ok? ==> res == BaseRow(p, schema)
  {
    var d :- BaseRow(p, schema);
    if HasTCP(p) then Err(UndefinedName("TCP"))
    else if HasUDP(p) then Err(UndefinedName("UDP"))
    else Ok(d)
  }

  /** The three length features set to `n`. */
  function WithLengths(d: Dict, n: nat): (r: Dict)
    requires KeysDistinct(d)
    ensures KeysDistinct(r)
    ensures Get(r, TotalLengthColumn) == Get(r, MaxLengthColumn) == Get(r, MeanLengthColumn) == Some(n)
    ensures forall k :: k != TotalLengthColumn && k != MaxLengthColumn && k != MeanLengthColumn ==> Get(r, k) == Get(d, k)
    ensures forall k :: k in Keys(d) ==> k in Keys(r)
  {
    Set(Set(Set(d, TotalLengthColumn, n), MaxLengthColumn, n), MeanLengthColumn, n)
  }

  /** All three length features of `d` are `n`. */
  predicate LengthsAre(d: Dict, n: Option<nat>)
    requires KeysDistinct(d)
  {
    Get(d, TotalLengthColumn) == n && Get(d, MaxLengthColumn) == n && Get(d, MeanLengthColumn) == n
  }

  /** Lines 29-44 as evidently intended: with a TCP layer the three length
      features are the TCP payload length, otherwise with a UDP layer they
      are the UDP payload length; every other entry is the shared row's. */
  function Extract(p: Packet, schema: seq<string>): (res: Result<Dict>)
    ensures res.Ok? <==> BaseRow(p, schema).Ok?
    ensures res.Err? ==> res.error == MissingAttribute("sport")
    ensures res.Ok? ==> KeysDistinct(res.value)
    ensures res.Ok? ==> forall k :: k != TotalLengthColumn && k != MaxLengthColumn && k != MeanLengthColumn ==>
      Get(res.value, k) == Get(BaseRow(p, schema).value, k)
    ensures res.Ok? && HasTCP(p) ==> LengthsAre(res.value, PayloadLength(p, false))
    ensures res.Ok? && !HasTCP(p) && HasUDP(p) ==> LengthsAre(res.value, PayloadLength(p, true))
    ensures res.Ok? && !HasTCP(p) && !HasUDP(p) ==> res == BaseRow(p, schema)
  {
    var d :- BaseRow(p, schema);
    Ok(WithPayload(p, d))
  }

  /** The length features from the first TCP layer's payload, else from the
      first UDP layer's; a packet with neither keeps its row. */
  function WithPayload(p: Packet, d: Dict): (r: Dict)
    requires KeysDistinct(d)
    ensures KeysDistinct(r)
    ensures forall k :: k != TotalLengthColumn && k != MaxLengthColumn && k != MeanLengthColumn ==> Get(r, k) == Get(d, k)
    ensures forall k :: k in Keys(d) ==> k in Keys(r)
    ensures HasTCP(p) ==> LengthsAre(r, PayloadLength(p, false))
    ensures !HasTCP(p) && HasUDP(p) ==> LengthsAre(r, PayloadLength(p, true))
    ensures !HasTCP(p) && !HasUDP(p) ==> r == d
  {
    if HasTCP(p) then WithLengths(d, PayloadLength(p, false).value)
    else if HasUDP(p) then WithLengths(d, PayloadLength(p, true).value)
    else d
  }

  /** An extracted row has an entry for every schema column. */
  lemma ExtractCoversSchema(p: Packet, schema: seq<string>)
    requires Extract(p, schema).Ok?
    ensures CoversSchema(Extract(p, schema).value, schema)
  {
    BaseRowCoversSchema(p, schema);
    assert Extract(p, schema).value == WithPayload(p, BaseRow(p, schema).value);
  }

  /** The features the classifier sees for a row (lines 47-51): the row as
      a one-row table over the schema, through the scaler's transform. */
  function RowInput(d: Dict, a: CaptureAssets): seq<int>
    requires KeysDistinct(d)
  {
    a.scaler.transform(Models.NumbersOf(SingleRowFrame(d, a.schema).records[0].cells))
  }

  /** Lines 47-55: the label the classifier gives a row. Scaling refuses a
      row that does not fit the scaler, and decoding refuses a code outside
      the classes; either error is passed on. */
  function Classify(d: Dict, a: CaptureAssets): (r: Result<string>)
    requires KeysDistinct(d)
    ensures r.Ok? <==> (Models.Scale(a.scaler, SingleRowFrame(d, a.schema)).Ok? &&
      0 <= a.classifier(RowInput(d, a)) < |a.classes|)
    ensures r.Ok? ==> Labels.Decode(a.classes, a.classifier(RowInput(d, a))) == Ok(r.value)
    ensures Models.Scale(a.scaler, SingleRowFrame(d, a.schema)).Err? ==>
      r == Err(Models.Scale(a.scaler, SingleRowFrame(d, a.schema)).error)
    ensures r.Err? && Models.Scale(a.scaler, SingleRowFrame(d, a.schema)).Ok? ==>
      r == Err(UnseenLabelCode(a.classifier(RowInput(d, a))))
  {
    var scaled :- Models.Scale(a.scaler, SingleRowFrame(d, a.schema));
    Labels.Decode(a.classes, a.classifier(scaled[0]))
  }

  /** Lines 47-59 on an extracted row: a `BENIGN` label prints nothing; any
      other label is printed with `packet['IP'].src` and `.dst`, whose
      `IndexError` on a packet without IPv4 is swallowed; a scaler or
      decoder error escapes. */
  function Verdict(p: Packet, d: Dict, a: CaptureAssets): (o: Outcome)
    requires KeysDistinct(d)
    ensures o.Crash? <==> Classify(d, a).Err?
    ensures Classify(d, a).Err? ==> o == Crash(Classify(d, a).error)
    ensures Classify(d, a) == Ok(Labels.Benign) ==> o == Quiet
    ensures Classify(d, a).Ok? && Classify(d, a).value != Labels.Benign && !HasIP(p) ==>
      o == Skipped(MissingLayer("IP"))
    ensures Classify(d, a).Ok? && Classify(d, a).value != Labels.Benign && HasIP(p) ==>
      o.Alert? && o.category == Classify(d, a).value && IPLayer(p) == Ok(IP(o.src, o.dst))
  {
    match Classify(d, a)
    case Err(e) => Crash(e)
    case Ok(name) =>
      if name == Labels.Benign then Quiet
      else match IPLayer(p)
        case Err(e) => Skipped(e)
        case Ok(ip) => Alert(name, ip.src, ip.dst)
  }

  /** `process_packet` (lines 19-63) over a given extraction: an extraction
      error is swallowed when it is one of the caught kinds. */
  function Handle(p: Packet, row: Result<Dict>, a: CaptureAssets): (o: Outcome)
    requires row.Ok? ==> KeysDistinct(row.value)
    ensures o.Skipped? ==> Caught(o.reason)
    ensures o.Crash? ==> !Caught(o.error)
    ensures row.Err? ==> !o.Alert? && !o.Quiet?
    ensures o.Alert? <==> (row.Ok? && HasIP(p) &&
      Classify(row.value, a).Ok? && Classify(row.value, a).value != Labels.Benign)
    ensures o.Alert? ==> (o.category == Classify(row.value, a).value &&
      IPLayer(p) == Ok(IP(o.src, o.dst)))
    ensures row.Err? ==> (o.Skipped? <==> Caught(row.error)) && (o.Crash? <==> !Caught(row.error))
    ensures row.Err? && o.Skipped? ==> o.reason == row.error
    ensures row.Err? && o.Crash? ==> o.error == row.error
    ensures row.Ok? ==> o == Verdict(p, row.value, a)
  {
    match row
    case Err(e) => if Caught(e) then Skipped(e) else Crash(e)
    case Ok(d) => Verdict(p, d, a)
  }

  /** The tool as written. */
  function ProcessAsWritten(p: Packet, a: CaptureAssets): (o: Outcome)
    ensures HasTCP(p) ==> o == Crash(UndefinedName("TCP"))
    ensures !HasTCP(p) && HasUDP(p) ==> o == Crash(UndefinedName("UDP"))
  {
    Handle(p, ExtractAsWritten(p, a.schema), a)
  }

  /** The tool as evidently intended. */
  function Process(p: Packet, a: CaptureAssets): (o: Outcome)
    ensures o.Skipped? ==> Caught(o.reason)
    ensures o.Crash? ==> !Caught(o.error)
    ensures o.Alert? <==> (Extract(p, a.schema).Ok? && HasIP(p) &&
      Classify(Extract(p, a.schema).value, a).Ok? && Classify(Extract(p, a.schema).value, a).value != Labels.Benign)
    ensures o.Alert? ==> (o.category == Classify(Extract(p, a.schema).value, a).value &&
      IPLayer(p) == Ok(IP(o.src, o.dst)))
    ensures Extract(p, a.schema).Err? ==> o == Skipped(MissingAttribute("sport"))
    ensures o.Crash? <==> (Extract(p, a.schema).Ok? && Classify(Extract(p, a.schema).value, a).Err?)
    ensures o.Crash? ==> o.error == Classify(Extract(p, a.schema).value, a).error
    ensures o.Quiet? <==> (Extract(p, a.schema).Ok? && Classify(Extract(p, a.schema).value, a) == Ok(Labels.Benign))
  {
    Handle(p, Extract(p, a.schema), a)
  }

  /** An IPv4 packet 10.0.0.1 → 10.0.0.2 with no port-carrying layer (ICMP). */
  const IcmpExample: Packet := Packet([IP("10.0.0.1", "10.0.0.2"), OtherLayer("ICMP")])

  /** Such a packet raises `AttributeError` on `packet.sport` (line 31); the
      tool swallows it and goes on, as written and corrected alike. */
  lemma IcmpPacketSkipped(a: CaptureAssets)
    ensures Process(IcmpExample, a) == Skipped(MissingAttribute("sport"))
    ensures ProcessAsWritten(IcmpExample, a) == Skipped(MissingAttribute("sport"))
  {
    var p := IcmpExample;
    assert HasIP(p) by {
      assert IsIP(p.layers[0]);
    }
    assert Ports(p).Err? by {
      assert forall i :: 0 <= i < |p.layers| ==> !HasPortFields(p.layers[i]);
    }
    assert !HasTCP(p) && !HasUDP(p) by {
      assert forall i :: 0 <= i < |p.layers| ==> !IsTCP(p.layers[i]) && !IsUDP(p.layers[i]);
    }
    AsWrittenAlertsOnlyOffTcpUdp(p, a);
  }

  /** As written, only a packet with neither TCP nor UDP can be reported,
      and on such a packet the tool behaves as the corrected one: a TCP or
      UDP packet ends the capture with `NameError` before it is classified. */
  lemma AsWrittenAlertsOnlyOffTcpUdp(p: Packet, a: CaptureAssets)
    ensures ProcessAsWritten(p, a).Alert? ==> !HasTCP(p) && !HasUDP(p)
    ensures !HasTCP(p) && !HasUDP(p) ==> ProcessAsWritten(p, a) == Process(p, a)
  {
  }

  /** A concrete packet that shows it: an IPv4 packet carrying TCP ends the
      capture with `NameError` instead of being classified. */
  lemma TcpPacketCrashes(a: CaptureAssets)
    ensures ProcessAsWritten(Packet([IP("10.0.0.1", "10.0.0.2"), TCP(40000, 80, 0)]), a) == Crash(UndefinedName("TCP"))
  {
    var p := Packet([IP("10.0.0.1", "10.0.0.2"), TCP(40000, 80, 0)]);
    assert IsTCP(p.layers[1]);
  }

  /** An IPv4 SCTP packet 10.0.0.1:5000 → 10.0.0.2:5001: its ports come
      from a layer that is neither TCP nor UDP. */
  const SctpExample: Packet := Packet([IP("10.0.0.1", "10.0.0.2"), OtherTransport("SCTP", 5000, 5001)])

  /** Such a packet does reach the classifier as written, and is reported
      with its addresses when the classifier calls it an attack. */
  lemma SctpPacketAlerts(a: CaptureAssets)
    requires a.scaler.featureNames == a.schema && |a.schema| > 0
    requires forall v :: 0 <= a.classifier(v) < |a.classes| && a.classes[a.classifier(v)] != Labels.Benign
    ensures var o := ProcessAsWritten(SctpExample, a);
      o.Alert? && o.category != Labels.Benign && o.src == "10.0.0.1" && o.dst == "10.0.0.2"
  {
    var p := SctpExample;
    assert HasIP(p) && IsFirst(p.layers, IsIP, 0) by {
      assert IsIP(p.layers[0]);
    }
    assert Ports(p).Ok? by {
      assert HasPortFields(p.layers[1]);
    }
    assert !HasTCP(p) && !HasUDP(p) by {
      assert forall i :: 0 <= i < |p.layers| ==> !IsTCP(p.layers[i]) && !IsUDP(p.layers[i]);
    }
    AsWrittenAlertsOnlyOffTcpUdp(p, a);
    ExtractCoversSchema(p, a.schema);
    ClassifiedAsAttack(Extract(p, a.schema).value, a);
  }

  /** With the corrected extraction, an IPv4 packet with TCP or UDP that the
      classifier calls an attack is reported, with its own addresses, when
      the scaler was fitted on the schema. */
  lemma ProcessAlertsOnAttack(p: Packet, a: CaptureAssets)
    requires HasIP(p) && (HasTCP(p) || HasUDP(p))
    requires a.scaler.featureNames == a.schema && |a.schema| > 0
    requires forall v :: 0 <= a.classifier(v) < |a.classes| && a.classes[a.classifier(v)] != Labels.Benign
    ensures Process(p, a).Alert?
    ensures IPLayer(p) == Ok(IP(Process(p, a).src, Process(p, a).dst))
  {
    TransportHasPorts(p);
    ExtractCoversSchema(p, a.schema);
    ClassifiedAsAttack(Extract(p, a.schema).value, a);
  }

  /** A packet with TCP or UDP has ports. */
  lemma TransportHasPorts(p: Packet)
    requires HasTCP(p) || HasUDP(p)
    ensures Ports(p).Ok?
  {
    if HasTCP(p) {
      var i :| 0 <= i < |p.layers| && IsTCP(p.layers[i]);
      assert HasPortFields(p.layers[i]);
    } else {
      var i :| 0 <= i < |p.layers| && IsUDP(p.layers[i]);
      assert HasPortFields(p.layers[i]);
    }
  }

  /** A row covering the schema, under a classifier that calls everything
      an attack, is classified as an attack. */
  lemma ClassifiedAsAttack(d: Dict, a: CaptureAssets)
    requires CoversSchema(d, a.schema)
    requires a.scaler.featureNames == a.schema && |a.schema| > 0
    requires forall v :: 0 <= a.classifier(v) < |a.classes| && a.classes[a.classifier(v)] != Labels.Benign
    ensures Classify(d, a).Ok? && Classify(d, a).value != Labels.Benign
  {
    RowScales(d, a);
  }

  /** A row covering the schema scales when the scaler was fitted on the
      schema. */
  lemma RowScales(d: Dict, a: CaptureAssets)
    requires CoversSchema(d, a.schema)
    requires a.scaler.featureNames == a.schema && |a.schema| > 0
    ensures Models.Scale(a.scaler, SingleRowFrame(d, a.schema)).Ok?
  {
    var f := SingleRowFrame(d, a.schema);
    forall r, j | r in f.records && 0 <= j < |r.cells| ensures r.cells[j].Num? {
      assert a.schema[j] in Keys(d);
    }
    assert Models.AllNumeric(f);
  }

  /** `sniff(prn=process_packet, store=0)`: packets are handled in arrival
      order until one raises an exception that escapes, which ends the run.
      The outcomes are those of the packets handled, the crash last. */
  function Sniff(packets: seq<Packet>, step: Packet -> Outcome): (outs: seq<Outcome>)
    ensures |outs| <= |packets|
    ensures forall i :: 0 <= i < |outs| ==> outs[i] == step(packets[i])
    ensures forall i :: 0 <= i < |outs| - 1 ==> !outs[i].Crash?
    ensures |outs| < |packets| ==> |outs| > 0 && outs[|outs| - 1].Crash?
    ensures (forall i :: 0 <= i < |packets| ==> !step(packets[i]).Crash?) ==> |outs| == |packets|
  {
    if |packets| == 0 then []
    else if step(packets[0]).Crash? then [step(packets[0])]
    else
      var rest := Sniff(packets[1..], step);
      assert forall i :: 1 <= i < |packets| ==> packets[i] == packets[1..][i - 1];
      [step(packets[0])] + rest
  }

  /** Whether each outcome of a run is an alert line. */
  function AlertFlags(outs: seq<Outcome>): (m: seq<bool>)
    ensures |m| == |outs|
    ensures forall i :: 0 <= i < |outs| ==> (m[i] <==> outs[i].Alert?)
  {
    Map(outs, (o: Outcome) => o.Alert?)
  }

  /** The alert lines a run prints: its alert outcomes, in order and with
      their repeats. */
  function Alerts(outs: seq<Outcome>): (r: seq<Outcome>)
    ensures r == Mask(outs, AlertFlags(outs))
    ensures forall o :: o in r <==> o in outs && o.Alert?
  {
    FilterIsMask(outs, (o: Outcome) => o.Alert?, AlertFlags(outs));
    forall o ensures o in Filter(outs, (o: Outcome) => o.Alert?) <==> o in outs && o.Alert? {
      FilterMember(outs, (o: Outcome) => o.Alert?, o);
    }
    Filter(outs, (o: Outcome) => o.Alert?)
  }

  /** A run of the tool as written ends at its first TCP or UDP packet, and
      every alert line it prints comes from a packet with neither, so a run
      whose packets all carry TCP or UDP prints nothing. */
  lemma AsWrittenRun(packets: seq<Packet>, a: CaptureAssets)
    ensures var outs := Sniff(packets, (p: Packet) => ProcessAsWritten(p, a));
      && (forall i :: 0 <= i < |packets| && (HasTCP(packets[i]) || HasUDP(packets[i])) ==> |outs| <= i + 1)
      && (forall i :: 0 <= i < |outs| && outs[i].Alert? ==> !HasTCP(packets[i]) && !HasUDP(packets[i]))
      && ((forall i :: 0 <= i < |packets| ==> HasTCP(packets[i]) || HasUDP(packets[i])) ==> Alerts(outs) == [])
  {
    var outs := Sniff(packets, (p: Packet) => ProcessAsWritten(p, a));
    forall i | 0 <= i < |outs| && outs[i].Alert? ensures !HasTCP(packets[i]) && !HasUDP(packets[i]) {
      AsWrittenAlertsOnlyOffTcpUdp(packets[i], a);
    }
    if forall i :: 0 <= i < |packets| ==> HasTCP(packets[i]) || HasUDP(packets[i]) {
      NoAlerts(outs);
    }
  }

  /** A run in which no outcome is an alert prints no alert line. */
  lemma NoAlerts(outs: seq<Outcome>)
    requires forall i :: 0 <= i < |outs| ==> !outs[i].Alert?
    ensures Alerts(outs) == []
  {
    assert true !in AlertFlags(outs);
  }

  /** The corrected tool, over a capture in which every packet is IPv4
      with TCP or UDP and is classified as an attack, prints one alert per
      packet, in order. */
  lemma RunAlertsEveryAttack(packets: seq<Packet>, a: CaptureAssets)
    requires forall i :: 0 <= i < |packets| ==> HasIP(packets[i]) && (HasTCP(packets[i]) || HasUDP(packets[i]))
    requires a.scaler.featureNames == a.schema && |a.schema| > 0
    requires forall v :: 0 <= a.classifier(v) < |a.classes| && a.classes[a.classifier(v)] != Labels.Benign
    ensures var outs := Sniff(packets, (p: Packet) => Process(p, a));
      |outs| == |packets| && forall i :: 0 <= i < |outs| ==> outs[i].Alert?
  {
    forall i | 0 <= i < |packets| ensures Process(packets[i], a).Alert? {
      ProcessAlertsOnAttack(packets[i], a);
    }
  }
}

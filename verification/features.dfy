/** The per-packet feature row both live tools build: a Python dict from
    feature name to value, started from the trained schema with every value
    0 and then overwritten from the packet; and the two ways such rows turn
    into a table (`pd.DataFrame(rows)` and `pd.DataFrame([row], columns=…)`). */
module Features {
  import opened Common
  import opened Seqs
  import opened Frames
  import opened Packets

  const SourcePort: string := "Source Port"
  const DestinationPort: string := "Destination Port"
  const ProtocolColumn: string := "Protocol"

  /** A dict: its entries in insertion order, each key once. */
  type Dict = seq<(string, int)>

  function Keys(d: Dict): (ks: seq<string>)
    ensures |ks| == |d|
    ensures forall i :: 0 <= i < |d| ==> ks[i] == d[i].0
  {
    seq(|d|, i requires 0 <= i < |d| => d[i].0)
  }

  predicate KeysDistinct(d: Dict) {
    AllDistinct(Keys(d))
  }

  /** `d.get(k)`. */
  function Get(d: Dict, k: string): (v: Option<int>)
    requires KeysDistinct(d)
    ensures v.None? <==> k !in Keys(d)
    ensures v.Some? ==> (k, v.value) in d
  {
    match IndexOf(Keys(d), k)
    case None => None
    case Some(i) => Some(d[i].1)
  }

  /** In a dict with distinct keys, the entry at position `i` is what `Get`
      finds for its key. */
  lemma GetAt(d: Dict, i: nat)
    requires KeysDistinct(d) && i < |d|
    ensures Get(d, d[i].0) == Some(d[i].1)
  {
    IndexOfDistinct(Keys(d), i);
  }

  /** `d[k] = v`: overwrite in place when the key is there, else append.
      Every other key keeps its value. */
  function Set(d: Dict, k: string, v: int): (r: Dict)
    requires KeysDistinct(d)
    ensures KeysDistinct(r)
    ensures Keys(r) == if k in Keys(d) then Keys(d) else Keys(d) + [k]
    ensures Get(r, k) == Some(v)
    ensures forall k' :: k' != k ==> Get(r, k') == Get(d, k')
  {
    match IndexOf(Keys(d), k)
    case Some(i) =>
      var r := d[i := (k, v)];
      assert Keys(r) == Keys(d);
      GetAt(r, i);
      assert forall k' :: k' != k ==> Get(r, k') == Get(d, k') by {
        forall k' | k' != k ensures Get(r, k') == Get(d, k') {
          if k' in Keys(d) {
            var j :| 0 <= j < |d| && Keys(d)[j] == k';
            GetAt(d, j);
            GetAt(r, j);
          }
        }
      }
      r
    case None =>
      var r := d + [(k, v)];
      assert Keys(r) == Keys(d) + [k];
      GetAt(r, |d|);
      assert forall k' :: k' != k ==> Get(r, k') == Get(d, k') by {
        forall k' | k' != k ensures Get(r, k') == Get(d, k') {
          if k' in Keys(d) {
            var j :| 0 <= j < |d| && Keys(d)[j] == k';
            GetAt(d, j);
            GetAt(r, j);
          }
        }
      }
      r
  }

  /** `{col: v for col in keys}`: one entry per distinct key, in order of
      first appearance, all holding `v`. */
  function FromKeys(keys: seq<string>, v: int): (d: Dict)
    ensures KeysDistinct(d)
    ensures Keys(d) == Distinct(keys)
    ensures forall k :: Get(d, k) == if k in keys then Some(v) else None
  {
    if |keys| == 0 then []
    else
      var init := keys[..|keys| - 1];
      assert keys == init + [keys[|keys| - 1]];
      Set(FromKeys(init, v), keys[|keys| - 1], v)
  }

  /** The part of feature extraction both live tools share (lines 42-49 of
      the dashboard page, 29-41 of the console tool): start from the schema
      at 0; with an IP layer, take both ports from the packet (Scapy's
      `AttributeError` when no layer has them); then `Protocol` is 6 with a
      TCP layer, else 17 with a UDP layer. */
  function BaseRow(p: Packet, schema: seq<string>): (res: Result<Dict>)
    ensures res.Ok? <==> !HasIP(p) || Ports(p).Ok?
    ensures res.Err? ==> res.error == MissingAttribute("sport")
    ensures res.Ok? ==> KeysDistinct(res.value)
  {
    var withPorts :- PortsRow(p, schema);
    Ok(WithProtocol(p, withPorts))
  }

  /** The schema at 0 with, for an IP packet, both ports overwritten. */
  function PortsRow(p: Packet, schema: seq<string>): (res: Result<Dict>)
    ensures res.Ok? <==> !HasIP(p) || Ports(p).Ok?
    ensures res.Err? ==> res.error == MissingAttribute("sport")
    ensures res.Ok? ==> KeysDistinct(res.value)
  {
    var zeros := FromKeys(schema, 0);
    if HasIP(p) then
      var ports :- Ports(p);
      Ok(Set(Set(zeros, SourcePort, ports.0), DestinationPort, ports.1))
    else Ok(zeros)
  }

  /** The `Protocol` entry set from the transport layer. */
  function WithProtocol(p: Packet, d: Dict): (r: Dict)
    requires KeysDistinct(d)
    ensures KeysDistinct(r)
  {
    if HasTCP(p) then Set(d, ProtocolColumn, 6)
    else if HasUDP(p) then Set(d, ProtocolColumn, 17)
    else d
  }

  /** The `Protocol` entry an extracted row ends with. */
  function ProtocolValue(p: Packet, schema: seq<string>): Option<int> {
    if HasTCP(p) then Some(6)
    else if HasUDP(p) then Some(17)
    else if ProtocolColumn in schema then Some(0)
    else None
  }

  /** After the port step every schema column is present; only the two port
      entries differ from the zeros, and with an IP layer they hold the
      packet's ports. */
  lemma PortsRowContents(p: Packet, schema: seq<string>)
    requires PortsRow(p, schema).Ok?
    ensures var d := PortsRow(p, schema).value;
      && (forall k :: k != SourcePort && k != DestinationPort ==>
            Get(d, k) == if k in schema then Some(0) else None)
      && (HasIP(p) ==> Get(d, SourcePort) == Some(Ports(p).value.0) && Get(d, DestinationPort) == Some(Ports(p).value.1))
      && (!HasIP(p) ==> Get(d, SourcePort) == (if SourcePort in schema then Some(0) else None))
      && (!HasIP(p) ==> Get(d, DestinationPort) == (if DestinationPort in schema then Some(0) else None))
      && (forall k :: k in Keys(d) ==> k in schema || k == SourcePort || k == DestinationPort)
      && (forall k :: k in schema ==> k in Keys(d))
  {
    var zeros := FromKeys(schema, 0);
    if HasIP(p) {
      var ports := Ports(p).value;
      var once := Set(zeros, SourcePort, ports.0);
      assert PortsRow(p, schema).value == Set(once, DestinationPort, ports.1);
    }
  }

  /** The protocol step touches only the `Protocol` entry. */
  lemma WithProtocolContents(p: Packet, d: Dict)
    requires KeysDistinct(d)
    ensures var r := WithProtocol(p, d);
      && Get(r, ProtocolColumn) == (if HasTCP(p) then Some(6) else if HasUDP(p) then Some(17) else Get(d, ProtocolColumn))
      && (forall k :: k != ProtocolColumn ==> Get(r, k) == Get(d, k))
      && (forall k :: k in Keys(r) ==> k in Keys(d) || k == ProtocolColumn)
      && (forall k :: k in Keys(d) ==> k in Keys(r))
  {
  }

  /** What an extracted row holds: every schema column starts at 0 and only
      the port and protocol entries are ever touched; with an IP layer the
      ports are the packet's, without one they stay as the schema had them;
      `Protocol` is 6 when there is a TCP layer (whether or not there is
      also UDP), otherwise 17 with UDP, otherwise untouched. No key outside
      the schema and those three appears. */
  lemma BaseRowContents(p: Packet, schema: seq<string>)
    requires BaseRow(p, schema).Ok?
    ensures var d := BaseRow(p, schema).value;
      && KeysDistinct(d)
      && (forall k :: k != SourcePort && k != DestinationPort && k != ProtocolColumn ==>
            Get(d, k) == if k in schema then Some(0) else None)
      && (HasIP(p) ==> Get(d, SourcePort) == Some(Ports(p).value.0) && Get(d, DestinationPort) == Some(Ports(p).value.1))
      && (!HasIP(p) ==> Get(d, SourcePort) == (if SourcePort in schema then Some(0) else None))
      && (!HasIP(p) ==> Get(d, DestinationPort) == (if DestinationPort in schema then Some(0) else None))
      && Get(d, ProtocolColumn) == ProtocolValue(p, schema)
      && forall k :: k in Keys(d) ==> k in schema || k in [SourcePort, DestinationPort, ProtocolColumn]
  {
    BaseRowUntouched(p, schema);
    BaseRowTouched(p, schema);
  }

  lemma BaseRowUntouched(p: Packet, schema: seq<string>)
    requires BaseRow(p, schema).Ok?
    ensures var d := BaseRow(p, schema).value;
      && (forall k :: k != SourcePort && k != DestinationPort && k != ProtocolColumn ==>
            Get(d, k) == if k in schema then Some(0) else None)
      && forall k :: k in Keys(d) ==> k in schema || k in [SourcePort, DestinationPort, ProtocolColumn]
  {
    var w := PortsRow(p, schema).value;
    assert BaseRow(p, schema).value == WithProtocol(p, w);
    PortsRowContents(p, schema);
    WithProtocolContents(p, w);
  }

  lemma BaseRowTouched(p: Packet, schema: seq<string>)
    requires BaseRow(p, schema).Ok?
    ensures var d := BaseRow(p, schema).value;
      && (HasIP(p) ==> Get(d, SourcePort) == Some(Ports(p).value.0) && Get(d, DestinationPort) == Some(Ports(p).value.1))
      && (!HasIP(p) ==> Get(d, SourcePort) == (if SourcePort in schema then Some(0) else None))
      && (!HasIP(p) ==> Get(d, DestinationPort) == (if DestinationPort in schema then Some(0) else None))
      && Get(d, ProtocolColumn) == ProtocolValue(p, schema)
  {
    var w := PortsRow(p, schema).value;
    var d := BaseRow(p, schema).value;
    assert d == WithProtocol(p, w);
    PortsRowContents(p, schema);
    WithProtocolContents(p, w);
    assert Get(d, SourcePort) == Get(w, SourcePort) && Get(d, DestinationPort) == Get(w, DestinationPort);
  }

  /** An extracted row has an entry for every schema column. */
  lemma BaseRowCoversSchema(p: Packet, schema: seq<string>)
    requires BaseRow(p, schema).Ok?
    ensures CoversSchema(BaseRow(p, schema).value, schema)
  {
    var w := PortsRow(p, schema).value;
    PortsRowContents(p, schema);
    WithProtocolContents(p, w);
    assert BaseRow(p, schema).value == WithProtocol(p, w);
  }

  /** A row with distinct keys that include every schema column. */
  ghost predicate CoversSchema(d: Dict, schema: seq<string>) {
    KeysDistinct(d) && forall k :: k in schema ==> k in Keys(d)
  }

  /** `pd.DataFrame(rows)` for a list of dicts: one column per key, in order
      of first appearance across the rows; row `i` holds the value of
      `rows[i]` under each key, NaN where that dict lacks the key; the index
      is 0, 1, 2, ... */
  function FrameOfDicts(rows: seq<Dict>): (f: Frame)
    requires forall i :: 0 <= i < |rows| ==> KeysDistinct(rows[i])
    ensures WellFormed(f) && RangeIndexed(f) && AllDistinct(f.columns)
    ensures |f.records| == |rows|
    ensures forall k :: k in f.columns <==> exists i :: 0 <= i < |rows| && k in Keys(rows[i])
    ensures forall i, j :: 0 <= i < |rows| && 0 <= j < |f.columns| ==>
      f.records[i].cells[j] == match Get(rows[i], f.columns[j]) case Some(v) => Num(v) case None => NaN
  {
    var columns := Distinct(AllKeys(rows));
    var records := seq(|rows|, i requires 0 <= i < |rows| =>
      Record(i, seq(|columns|, j requires 0 <= j < |columns| =>
        match Get(rows[i], columns[j]) case Some(v) => Num(v) case None => NaN)));
    Frame(columns, records)
  }

  /** The keys of all rows, one row after another. */
  function AllKeys(rows: seq<Dict>): (ks: seq<string>)
    ensures forall k :: k in ks <==> exists i :: 0 <= i < |rows| && k in Keys(rows[i])
  {
    if |rows| == 0 then []
    else
      var rest := AllKeys(rows[1..]);
      assert forall i :: 1 <= i < |rows| ==> rows[i] == rows[1..][i - 1];
      Keys(rows[0]) + rest
  }

  lemma {:induction false} AllKeysConcat(rows: seq<Dict>, more: seq<Dict>)
    ensures AllKeys(rows + more) == AllKeys(rows) + AllKeys(more)
  {
    if |rows| == 0 {
      assert rows + more == more;
    } else {
      assert (rows + more)[1..] == rows[1..] + more;
      AllKeysConcat(rows[1..], more);
    }
  }

  /** Building the table from a longer list of rows that starts with
      `rows` keeps the earlier columns first and in order, and a key only
      the later rows have makes it strictly wider. */
  lemma ColumnsGrow(rows: seq<Dict>, later: seq<Dict>, j: nat, k: string)
    requires forall i :: 0 <= i < |rows| ==> KeysDistinct(rows[i])
    requires forall i :: 0 <= i < |later| ==> KeysDistinct(later[i])
    requires |rows| <= |later| && later[..|rows|] == rows
    requires |rows| <= j < |later| && k in Keys(later[j])
    requires forall i :: 0 <= i < |rows| ==> k !in Keys(rows[i])
    ensures var c1 := FrameOfDicts(rows).columns;
      var c2 := FrameOfDicts(later).columns;
      |c1| < |c2| && c2[..|c1|] == c1
  {
    var more := later[|rows|..];
    assert rows + more == later;
    var c1 := FrameOfDicts(rows).columns;
    var c2 := FrameOfDicts(later).columns;
    AllKeysConcat(rows, more);
    DistinctPrefix(AllKeys(rows), AllKeys(more));
    assert k in c2 && k !in c1;
  }

  /** `pd.DataFrame([row], columns=schema)`: a one-row table with exactly the
      schema's columns; a key outside the schema is dropped and a schema
      column the dict lacks is NaN. */
  function SingleRowFrame(d: Dict, schema: seq<string>): (f: Frame)
    requires KeysDistinct(d)
    ensures f.columns == schema && WellFormed(f) && RangeIndexed(f) && |f.records| == 1
    ensures forall j :: 0 <= j < |schema| ==>
      f.records[0].cells[j] == match Get(d, schema[j]) case Some(v) => Num(v) case None => NaN
  {
    Frame(schema, [Record(0, seq(|schema|, j requires 0 <= j < |schema| =>
      match Get(d, schema[j]) case Some(v) => Num(v) case None => NaN))])
  }
}

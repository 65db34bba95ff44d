/** One `upsert_record` call in place: the lock, the read, the numbered form, the server's zones. */
module DnsClient {
  import opened Wrappers
  import opened DnsForm
  import opened DnsProtocol

  /** How the write ends: carried out, carried out with its reply lost, or refused. */
  datatype Write = Carried | Lost | Refused

  class Client {
    /** The server's zones, as it would list them. */
    var zones: map<Zone, seq<RawHost>>
    var locked: bool

    constructor (zones: map<Zone, seq<RawHost>>)
      ensures this.zones == zones && !locked
    {
      this.zones, locked := zones, false;
    }

    /** The records an upsert to this domain would read, when the reply arrives and can be represented. */
    ghost function Readable(op: Upsert, replies: bool): Option<seq<DnsRecord>>
      reads this
    {
      var zone := SplitDomain(op.domain);
      if replies && zone.Some? && zone.value in zones then ParseZone(zones[zone.value]) else None
    }

    /** `list_records`; None where it raises. */
    method ListRecords(op: Upsert, replies: bool) returns (records: Option<seq<DnsRecord>>)
      ensures records == Readable(op, replies)
      ensures records.Some? <==>
        && var zone := SplitDomain(op.domain);
           replies && zone.Some? && zone.value in zones && ParseZone(zones[zone.value]).Some?
    {
      var zone := SplitDomain(op.domain);
      if !replies || zone.None? || zone.value !in zones {
        return None;
      }
      records := ParseZone(zones[zone.value]);
    }

    /** The server replaces the zone by the hosts it counts in the form. */
    method SetRecords(zone: Zone, records: seq<DnsRecord>, write: Write) returns (ok: bool)
      modifies this`zones
      ensures ok <==> write.Carried?
      ensures write.Refused? ==> zones == old(zones)
      ensures !write.Refused? ==>
        && zone in zones && ParseZone(zones[zone]) == Some(records)
        && zones == old(zones)[zone := zones[zone]]
    {
      var fields := SetRecordsForm(zone, records);
      DecodeEncode(zone, records);
      if !write.Refused? {
        zones := zones[zone := Decode(fields, 1).value];
      }
      ok := write.Carried?;
    }

    /**
     The call reads the zone, puts its record in place of the one with the same host and type, and
     writes everything back; whatever fails, it leaves the lock free and every other zone alone.
     */
    method UpsertRecord(op: Upsert, replies: bool, write: Write) returns (ok: bool)
      requires !locked
      modifies this
      ensures !locked
      ensures ok <==> old(Readable(op, replies)).Some? && write.Carried?
      ensures old(Readable(op, replies)).None? || write.Refused? ==> zones == old(zones)
      ensures old(Readable(op, replies)).Some? && !write.Refused? ==>
        && var zone := SplitDomain(op.domain);
           && zone.Some? && zone.value in zones
           && ParseZone(zones[zone.value]).Some?
           && Replaces(old(Readable(op, replies)).value, op.record, ParseZone(zones[zone.value]).value)
           && zones == old(zones)[zone.value := zones[zone.value]]
    {
      locked := true;
      var current := ListRecords(op, replies);
      if current.None? {
        locked := false;
        return false;
      }
      UpsertReplaces(current.value, op.record);
      var kept := Without(current.value, {KeyOf(op.record)});
      ok := SetRecords(SplitDomain(op.domain).value, kept + [op.record], write);
      locked := false;
    }
  }
}

/** The records that the memory engine changes in place after it has stored them: facts, whose
    interval and status are closed by later writes, and timeline segments, whose forward link is
    patched (memory/models.py). */
module MatrixRecords {
  import opened Prelude
  import opened Records
  import opened FactStore

  class FactRecord {
    const id: Id
    const scope: string
    const subject: string
    const pred: string
    const obj: string
    const head: string
    const confidence: real
    const provenance: seq<string>
    const observedAt: Time
    const validFrom: Option<Time>
    const supersedes: Option<Id>
    var validUntil: Option<Time>
    var status: Status

    constructor (f: Fact)
      ensures Rec() == f && id == f.id
    {
      id, scope, subject, pred, obj, head := f.id, f.scope, f.subject, f.pred, f.obj, f.head;
      confidence, provenance, observedAt, validFrom := f.confidence, f.provenance, f.observedAt, f.validFrom;
      supersedes, validUntil, status := f.supersedes, f.validUntil, f.status;
    }

    function Rec(): Fact
      reads this
    {
      Fact(id, scope, subject, pred, obj, head, confidence, provenance, observedAt, validFrom, validUntil, status, supersedes)
    }

    method Close(until: Time)
      modifies this
      ensures Rec() == old(Rec()).(validUntil := Some(until), status := Superseded)
    {
      validUntil := Some(until);
      status := Superseded;
    }

    method Mark(status: Status)
      modifies this
      ensures Rec() == old(Rec()).(status := status)
    {
      this.status := status;
    }
  }

  class SegmentRecord {
    const id: Id
    const core: Segment
    var next: Option<Id>

    constructor (s: Segment)
      ensures Rec() == s && id == s.id
    {
      id, core, next := s.id, s, s.next;
    }

    function Rec(): Segment
      reads this
    {
      core.(next := next)
    }

    method Link(next: Id)
      modifies this
      ensures Rec() == old(Rec()).(next := Some(next))
    {
      this.next := Some(next);
    }
  }
}

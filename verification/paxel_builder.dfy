/** The staged paxel builder of the grid mapper (`UnrestrictedPaxelSpecification`)
    and the time-ordered set of "paxel at position" entries (`PaxelInPartial`)
    that the mapper fills in. The C++ set of shared pointers becomes a
    strictly position-ordered sequence of entries updated by index. */
module PaxelBuilder {
  import opened Wrappers
  import opened AudioTypes

  /** Rogue value of every unset double field; outside every legal range. */
  const NO_VALUE_DOUBLE: real := -10.0
  /** Rogue value of every unset uint32 field. */
  const NO_VALUE_INT: nat := 0xFFFFFFFF
  const UINT32_MAX: nat := 0xFFFFFFFF

  datatype Builder = Builder(
    startFrequency: real,
    endFrequency: real,
    startAmplitude: real,
    endAmplitude: real,
    startPhase: real,
    endPhase: real,
    durationSamples: nat,
    startSample: nat,
    endSample: nat)

  /** A builder as default-constructed: every field holds its rogue value. */
  const Fresh: Builder := Builder(NO_VALUE_DOUBLE, NO_VALUE_DOUBLE, NO_VALUE_DOUBLE, NO_VALUE_DOUBLE,
                                  NO_VALUE_DOUBLE, NO_VALUE_DOUBLE, NO_VALUE_INT, NO_VALUE_INT, NO_VALUE_INT)

  /** Every field has been assigned (differs from its rogue value). */
  predicate Complete(b: Builder) {
    && b.startFrequency != NO_VALUE_DOUBLE
    && b.endFrequency != NO_VALUE_DOUBLE
    && b.startAmplitude != NO_VALUE_DOUBLE
    && b.endAmplitude != NO_VALUE_DOUBLE
    && b.startPhase != NO_VALUE_DOUBLE
    && b.endPhase != NO_VALUE_DOUBLE
    && b.durationSamples != NO_VALUE_INT
    && b.startSample != NO_VALUE_INT
    && b.endSample != NO_VALUE_INT
  }

  /** The builder's fields read as a paxel, without any check. */
  function ToPaxel(b: Builder): Paxel {
    Paxel(b.startFrequency, b.endFrequency, b.startAmplitude, b.endAmplitude,
          b.startPhase, b.endPhase, b.durationSamples, b.startSample, b.endSample)
  }

  datatype BuildError = UnsetField | InvalidPaxel

  /** `generatePaxelSpecification`: fails while any field is unset, then
      hands every field unchanged to the checked paxel constructor. */
  function Finalize(b: Builder): (r: Result<Paxel, BuildError>)
    ensures r.Failure? && r.error == UnsetField <==> !Complete(b)
    ensures r.Success? <==> Complete(b) && ValidPaxel(ToPaxel(b))
    ensures r.Success? ==> ValidPaxel(r.value)
    ensures r.Success? ==> && r.value.startFrequency == b.startFrequency
                           && r.value.endFrequency == b.endFrequency
                           && r.value.startAmplitude == b.startAmplitude
                           && r.value.endAmplitude == b.endAmplitude
                           && r.value.startPhase == b.startPhase
                           && r.value.endPhase == b.endPhase
                           && r.value.durationSamples == b.durationSamples
                           && r.value.startSample == b.startSample
                           && r.value.endSample == b.endSample
  {
    if !Complete(b) then Failure(UnsetField)
    else if !ValidPaxel(ToPaxel(b)) then Failure(InvalidPaxel)
    else Success(ToPaxel(b))
  }

  /** `generatePaxelSpecification` with the constructor's own window check,
      which lets the window end one past the buffer. */
  function FinalizeAsWritten(b: Builder): (r: Result<Paxel, BuildError>)
    ensures r.Failure? && r.error == UnsetField <==> !Complete(b)
    ensures r.Success? <==> Complete(b) && ValidPaxelAsWritten(ToPaxel(b))
    ensures r.Success? ==> r.value == ToPaxel(b)
  {
    if !Complete(b) then Failure(UnsetField)
    else if !ValidPaxelAsWritten(ToPaxel(b)) then Failure(InvalidPaxel)
    else Success(ToPaxel(b))
  }

  /** The two checks agree on every builder whose window ends inside the
      buffer; they differ only on a complete builder whose window ends one
      past it, which the constructor accepts. */
  lemma FinalizeAgrees(b: Builder)
    ensures b.endSample < b.durationSamples ==> FinalizeAsWritten(b) == Finalize(b)
    ensures FinalizeAsWritten(b) != Finalize(b) <==>
              Complete(b) && b.endSample == b.durationSamples && ValidPaxelAsWritten(ToPaxel(b))
  {
    StrictWindow(ToPaxel(b));
  }

  /** A one-sample cell whose window ends one past the buffer: the
      constructor accepts it, the strict check does not. */
  lemma FinalizeOverrun()
    ensures var b := Builder(1.0, 1.0, 0.0, 0.0, 0.0, 0.0, 1, 0, 1);
            && FinalizeAsWritten(b) == Success(ToPaxel(b))
            && Finalize(b) == Failure(InvalidPaxel)
  {
  }

  /** A fresh builder cannot be finalised, and none of its fields is set. */
  lemma FreshIsUnset()
    ensures !Complete(Fresh) && Finalize(Fresh) == Failure(UnsetField)
    ensures Fresh.startFrequency == Fresh.startPhase == Fresh.endAmplitude == NO_VALUE_DOUBLE
    ensures Fresh.durationSamples == Fresh.startSample == Fresh.endSample == NO_VALUE_INT
  {
  }

  /** The double rogue value is outside the legal frequency, amplitude and
      phase ranges, so a builder with an unset double field also fails the
      paxel invariant. */
  lemma UnsetDoubleViolatesPaxel(b: Builder)
    requires || b.startFrequency == NO_VALUE_DOUBLE || b.endFrequency == NO_VALUE_DOUBLE
             || b.startAmplitude == NO_VALUE_DOUBLE || b.endAmplitude == NO_VALUE_DOUBLE
             || b.startPhase == NO_VALUE_DOUBLE || b.endPhase == NO_VALUE_DOUBLE
    ensures !ValidPaxelValues(ToPaxel(b))
  {
  }

  /** Within uint32 the rogue start or end sample cannot lie inside a
      buffer, but the rogue duration is a legal cell length: only the
      explicit check rejects an unset `durationSamples`. */
  lemma UnsetDurationIsLegal()
    ensures var b := Fresh.(startFrequency := 1.0, endFrequency := 1.0, startAmplitude := 0.0,
                            endAmplitude := 0.0, startPhase := 0.0, endPhase := 0.0,
                            startSample := 0, endSample := 0);
            ValidPaxel(ToPaxel(b)) && !Complete(b)
    ensures forall b: Builder :: b.durationSamples <= UINT32_MAX && ValidPaxel(ToPaxel(b)) ==>
              b.startSample != NO_VALUE_INT && b.endSample != NO_VALUE_INT
  {
  }

  /** Builder equality: every field except `endSample`, so that paxels of the
      same shape compare equal wherever they end. */
  predicate SameShape(a: Builder, b: Builder) {
    && a.startFrequency == b.startFrequency && a.endFrequency == b.endFrequency
    && a.startAmplitude == b.startAmplitude && a.endAmplitude == b.endAmplitude
    && a.startPhase == b.startPhase && a.endPhase == b.endPhase
    && a.durationSamples == b.durationSamples && a.startSample == b.startSample
  }

  /** Two builders have the same shape exactly when they are equal once their
      end samples are forgotten; so the relation is an equivalence. */
  lemma SameShapeIgnoresEnd(a: Builder, b: Builder)
    ensures SameShape(a, b) <==> a.(endSample := 0) == b.(endSample := 0)
    ensures SameShape(a, a)
    ensures SameShape(a, b) ==> SameShape(b, a)
    ensures SameShape(a, b) ==> SameShape(a, b.(endSample := a.endSample + 1))
  {
  }

  /** A builder at a sample position in the partial (`PaxelInPartial`). */
  datatype Entry = Entry(position: nat, paxel: Builder)

  /** The set ordering: by position only. */
  predicate Before(a: Entry, b: Entry) {
    a.position < b.position
  }

  /** Entry equality: same position and same-shaped builder. */
  predicate EntryEquals(a: Entry, b: Entry) {
    SameShape(a.paxel, b.paxel) && a.position == b.position
  }

  /** An ordered set keyed by `Before` treats two entries as the same key
      exactly when their positions agree, whatever their builders hold; so
      `EntryEquals` implies key equivalence but not the converse. */
  lemma BeforeKeysOnPosition(a: Entry, b: Entry)
    ensures (!Before(a, b) && !Before(b, a)) <==> a.position == b.position
    ensures EntryEquals(a, b) ==> !Before(a, b) && !Before(b, a)
    ensures !Before(a, a)
  {
  }

  /** Positions strictly increase along the sequence: one entry per key. */
  predicate Ordered(es: seq<Entry>) {
    forall i, j :: 0 <= i < j < |es| ==> es[i].position < es[j].position
  }

  function Positions(es: seq<Entry>): set<nat> {
    if |es| == 0 then {} else {es[0].position} + Positions(es[1..])
  }

  /** A position is in the key set exactly when some entry sits there. */
  lemma {:induction false} PositionsMembers(es: seq<Entry>, p: nat)
    ensures p in Positions(es) <==> exists i :: 0 <= i < |es| && es[i].position == p
  {
    if |es| > 0 {
      PositionsMembers(es[1..], p);
      if exists i :: 0 <= i < |es[1..]| && es[1..][i].position == p {
        var i :| 0 <= i < |es[1..]| && es[1..][i].position == p;
        assert es[i + 1].position == p;
      }
      if exists i :: 0 <= i < |es| && es[i].position == p {
        var i :| 0 <= i < |es| && es[i].position == p;
        if i > 0 { assert es[1..][i - 1].position == p; }
      }
    }
  }

  lemma PositionsCons(x: Entry, es: seq<Entry>)
    ensures Positions([x] + es) == {x.position} + Positions(es)
  {
    assert ([x] + es)[1..] == es;
  }

  /** The first position of an ordered, non-empty sequence is below every
      other key. */
  lemma {:induction false} OrderedHeadIsLeast(es: seq<Entry>, p: nat)
    requires Ordered(es) && |es| > 0
    requires p in Positions(es[1..])
    ensures es[0].position < p
  {
    PositionsMembers(es[1..], p);
    var i :| 0 <= i < |es[1..]| && es[1..][i].position == p;
    assert es[i + 1].position == p;
  }

  /** The head of an ordered, non-empty sequence holds its least key. */
  lemma OrderedHeadBound(es: seq<Entry>)
    requires Ordered(es) && |es| > 0
    ensures forall p :: p in Positions(es) ==> es[0].position <= p
  {
    forall p | p in Positions(es) ensures es[0].position <= p {
      assert es == [es[0]] + es[1..];
      PositionsCons(es[0], es[1..]);
      if p != es[0].position { OrderedHeadIsLeast(es, p); }
    }
  }

  /** Putting a key below every key of an ordered sequence in front of it
      keeps it ordered. */
  lemma ConsOrdered(x: Entry, es: seq<Entry>)
    requires Ordered(es)
    requires forall p :: p in Positions(es) ==> x.position < p
    ensures Ordered([x] + es)
  {
    forall i, j | 0 <= i < j < |[x] + es|
      ensures ([x] + es)[i].position < ([x] + es)[j].position
    {
      if i == 0 {
        PositionsMembers(es, es[j - 1].position);
      }
    }
  }

  /** `std::set::insert`: adds the entry in order unless an entry with the
      same position is already present, which is then kept unchanged. */
  function {:induction false} InsertEntry(es: seq<Entry>, e: Entry): (r: seq<Entry>)
    requires Ordered(es)
    ensures Ordered(r)
    ensures Positions(r) == Positions(es) + {e.position}
    decreases |es|
  {
    if |es| == 0 then [e]
    else if e.position < es[0].position then
      PositionsCons(e, es);
      assert es == [es[0]] + es[1..];
      PositionsCons(es[0], es[1..]);
      forall p | p in Positions(es) ensures e.position < p {
        if p != es[0].position { OrderedHeadIsLeast(es, p); }
      }
      ConsOrdered(e, es);
      [e] + es
    else if e.position == es[0].position then
      assert es == [es[0]] + es[1..];
      PositionsCons(es[0], es[1..]);
      es
    else
      assert es == [es[0]] + es[1..];
      PositionsCons(es[0], es[1..]);
      var rest := InsertEntry(es[1..], e);
      PositionsCons(es[0], rest);
      forall p | p in Positions(rest) ensures es[0].position < p {
        if p != e.position { OrderedHeadIsLeast(es, p); }
      }
      ConsOrdered(es[0], rest);
      [es[0]] + rest
  }

  /** Insertion keeps every entry already present, adds nothing but the new
      one, and is a no-op exactly when its key is taken. */
  lemma {:induction false} InsertEntryMembers(es: seq<Entry>, e: Entry)
    requires Ordered(es)
    ensures forall x :: x in es ==> x in InsertEntry(es, e)
    ensures forall x :: x in InsertEntry(es, e) ==> x in es || x == e
    ensures e.position in Positions(es) ==> InsertEntry(es, e) == es
    ensures e.position !in Positions(es) ==> e in InsertEntry(es, e) && |InsertEntry(es, e)| == |es| + 1
    decreases |es|
  {
    if |es| > 0 {
      assert es == [es[0]] + es[1..];
      PositionsCons(es[0], es[1..]);
      if e.position < es[0].position {
        OrderedHeadBound(es);
      } else if e.position > es[0].position {
        InsertEntryMembers(es[1..], e);
        var rest := InsertEntry(es[1..], e);
        assert InsertEntry(es, e) == [es[0]] + rest;
        forall x | x in es ensures x in InsertEntry(es, e) {
          if x != es[0] { assert x in es[1..]; }
        }
      }
    }
  }

  /** The index of the entry at a position, when there is one. */
  function {:induction false} IndexOf(es: seq<Entry>, pos: nat): (r: Option<nat>)
    ensures r.Some? ==> r.value < |es| && es[r.value].position == pos
    ensures r.None? <==> pos !in Positions(es)
  {
    if |es| == 0 then None
    else if es[0].position == pos then Some(0)
    else match IndexOf(es[1..], pos)
      case None => None
      case Some(k) => Some(k + 1)
  }
}

/**
 * The handheld side: the workout payload decoder, the reception handler that
 * appends decoded entries to the workout log and acknowledges them, and the
 * two log edits offered by the screen (clear all, delete one).
 */
module PhoneActivity {
  import opened KotlinText
  import opened Transport

  /** Path of the messages carrying workout entries. */
  const WORKOUT_PATH: string := "/workout-entry"
  /** Path of the empty acknowledgment returned to the sender. */
  const WORKOUT_VALIDATED_PATH: string := "/workout-validated"

  const RECORD_SEPARATOR: char := '|'
  const FIELD_SEPARATOR: char := ';'

  /**
   * One received exercise. `timestamp` is the clock reading (milliseconds) at
   * which the entry was built; it takes part in equality, as in a Kotlin data
   * class.
   */
  datatype WorkoutEntry = WorkoutEntry(exercise: string, sets: int, reps: int, timestamp: int)

  /** Both counts are values a Kotlin `Int` can hold. */
  predicate CountsFit(e: WorkoutEntry) {
    IsInt(e.sets) && IsInt(e.reps)
  }

  // ---------------------------------------------------------------------------
  // Decoding
  // ---------------------------------------------------------------------------

  /** A piece with exactly three `;`-fields, i.e. two field separators. */
  predicate HasThreeFields(piece: string) {
    CountOf(piece, FIELD_SEPARATOR) == 2
  }

  /**
   * One `|`-piece of a payload: kept when it splits into exactly three
   * `;`-fields, the name taken verbatim and each count parsed with
   * `toIntOrNull() ?: 0`; otherwise dropped.
   */
  function DecodeEntry(entryString: string, now: int): (r: Option<WorkoutEntry>)
    ensures r.Some? <==> HasThreeFields(entryString)
    ensures r.Some? ==> CountsFit(r.value) && r.value.timestamp == now
    ensures r.Some? ==> FIELD_SEPARATOR !in r.value.exercise
  {
    var parts := Split(entryString, FIELD_SEPARATOR);
    if |parts| == 3 then
      Some(WorkoutEntry(
        exercise := parts[0],
        sets := ToIntOrNull(parts[1]).GetOr(0),
        reps := ToIntOrNull(parts[2]).GetOr(0),
        timestamp := now))
    else
      None
  }

  /** The entry a piece decodes to, as a list of at most one element. */
  function Kept(r: Option<WorkoutEntry>): (entries: seq<WorkoutEntry>) {
    match r
    case Some(e) => [e]
    case None => []
  }

  /** `mapNotNull` of DecodeEntry over the `|`-pieces. */
  function DecodeEntries(entryStrings: seq<string>, now: int): (entries: seq<WorkoutEntry>)
    ensures |entries| <= |entryStrings|
    ensures entries == [] <==> forall i :: 0 <= i < |entryStrings| ==> !HasThreeFields(entryStrings[i])
    ensures forall k :: 0 <= k < |entries| ==> CountsFit(entries[k]) && entries[k].timestamp == now
  {
    if entryStrings == [] then []
    else
      var tail := DecodeEntries(entryStrings[1..], now);
      assert forall i :: 1 <= i < |entryStrings| ==> entryStrings[i] == entryStrings[1..][i - 1];
      Kept(DecodeEntry(entryStrings[0], now)) + tail
  }

  /** The workout payload decoder: split on `|`, then decode each piece. */
  function Decode(message: string, now: int): (entries: seq<WorkoutEntry>)
    ensures |entries| <= CountOf(message, RECORD_SEPARATOR) + 1
    ensures entries == [] <==> forall piece :: piece in Split(message, RECORD_SEPARATOR) ==> !HasThreeFields(piece)
  {
    DecodeEntries(Split(message, RECORD_SEPARATOR), now)
  }

  /**
   * Decoding works piece by piece: the entries of a concatenation of pieces
   * are the entries of the first part followed by those of the second, so
   * kept entries stay in payload order.
   */
  lemma {:induction false} DecodeEntriesAppend(a: seq<string>, b: seq<string>, now: int)
    ensures DecodeEntries(a + b, now) == DecodeEntries(a, now) + DecodeEntries(b, now)
  {
    if a == [] {
      assert a + b == b;
    } else {
      assert (a + b)[0] == a[0];
      assert (a + b)[1..] == a[1..] + b;
      DecodeEntriesAppend(a[1..], b, now);
    }
  }

  /**
   * A piece made of three `;`-free fields decodes to an entry whose name is
   * the first field verbatim (possibly empty) and whose counts are the parsed
   * fields, or 0 where a field is not an `Int`.
   */
  lemma DecodeEntryOf(name: string, sets: string, reps: string, now: int)
    requires FIELD_SEPARATOR !in name && FIELD_SEPARATOR !in sets && FIELD_SEPARATOR !in reps
    ensures DecodeEntry(name + ";" + sets + ";" + reps, now)
         == Some(WorkoutEntry(name, ToIntOrNull(sets).GetOr(0), ToIntOrNull(reps).GetOr(0), now))
  {
    var fields := [name, sets, reps];
    assert Join(fields, FIELD_SEPARATOR) == name + ";" + sets + ";" + reps by {
      assert fields[1..] == [sets, reps];
      assert fields[1..][1..] == [reps];
      assert Join([sets, reps], FIELD_SEPARATOR) == sets + ";" + reps;
    }
    SplitJoin(fields, FIELD_SEPARATOR);
  }

  /**
   * A corrupt piece anywhere in a payload is dropped on its own: the pieces
   * around it decode exactly as they would without it.
   */
  lemma CorruptPieceDropped(before: seq<string>, bad: string, after: seq<string>, now: int)
    requires !HasThreeFields(bad)
    ensures DecodeEntries(before + [bad] + after, now) == DecodeEntries(before, now) + DecodeEntries(after, now)
  {
    assert DecodeEntries([bad], now) == [] by {
      assert DecodeEntry(bad, now) == None;
      assert [bad][1..] == [];
      assert DecodeEntries([bad], now) == Kept(DecodeEntry(bad, now)) + DecodeEntries([], now);
    }
    DecodeEntriesAppend(before + [bad], after, now);
    DecodeEntriesAppend(before, [bad], now);
  }

  // ---------------------------------------------------------------------------
  // The wire format the decoder expects
  // ---------------------------------------------------------------------------

  /** `name;sets;reps` with the counts printed as Kotlin prints an `Int`. */
  function EntryText(e: WorkoutEntry): string {
    e.exercise + ";" + IntToString(e.sets) + ";" + IntToString(e.reps)
  }

  function EntryTexts(batch: seq<WorkoutEntry>): (texts: seq<string>)
    ensures |texts| == |batch|
  {
    if batch == [] then [] else [EntryText(batch[0])] + EntryTexts(batch[1..])
  }

  /** The payload text for a batch: the entry texts joined with `|`. */
  function Serialize(batch: seq<WorkoutEntry>): string {
    Join(EntryTexts(batch), RECORD_SEPARATOR)
  }

  /** An entry that survives the wire: separator-free name, `Int` counts, stamped at `now`. */
  predicate Transmittable(e: WorkoutEntry, now: int) {
    FIELD_SEPARATOR !in e.exercise && RECORD_SEPARATOR !in e.exercise && CountsFit(e) && e.timestamp == now
  }

  /** One transmittable entry decodes from its own text, which holds no `|`. */
  lemma EntryTextDecodes(e: WorkoutEntry, now: int)
    requires Transmittable(e, now)
    ensures DecodeEntry(EntryText(e), now) == Some(e)
    ensures RECORD_SEPARATOR !in EntryText(e)
  {
    var setsText, repsText := IntToString(e.sets), IntToString(e.reps);
    assert FIELD_SEPARATOR !in setsText && RECORD_SEPARATOR !in setsText;
    assert FIELD_SEPARATOR !in repsText && RECORD_SEPARATOR !in repsText;
    DecodeEntryOf(e.exercise, setsText, repsText, now);
    ToIntOrNullOfToString(e.sets);
    ToIntOrNullOfToString(e.reps);
  }

  lemma {:induction false} EntryTextsSeparatorFree(batch: seq<WorkoutEntry>, now: int)
    requires forall k :: 0 <= k < |batch| ==> Transmittable(batch[k], now)
    ensures forall k :: 0 <= k < |batch| ==> RECORD_SEPARATOR !in EntryTexts(batch)[k]
  {
    if batch != [] {
      EntryTextsSeparatorFree(batch[1..], now);
      EntryTextDecodes(batch[0], now);
      assert forall k :: 1 <= k < |batch| ==> EntryTexts(batch)[k] == EntryTexts(batch[1..])[k - 1];
    }
  }

  lemma {:induction false} DecodeEntryTexts(batch: seq<WorkoutEntry>, now: int)
    requires forall k :: 0 <= k < |batch| ==> Transmittable(batch[k], now)
    ensures DecodeEntries(EntryTexts(batch), now) == batch
  {
    if batch != [] {
      var texts := EntryTexts(batch);
      assert texts[0] == EntryText(batch[0]) && texts[1..] == EntryTexts(batch[1..]);
      calc {
        DecodeEntries(texts, now);
        Kept(DecodeEntry(texts[0], now)) + DecodeEntries(texts[1..], now);
        { EntryTextDecodes(batch[0], now); DecodeEntryTexts(batch[1..], now); }
        [batch[0]] + batch[1..];
        batch;
      }
    }
  }

  /**
   * The round trip: a batch whose names contain neither separator and whose
   * counts are printed `Int` values decodes back to exactly that batch
   * (the empty batch included, since the empty payload decodes to nothing).
   */
  lemma DecodeSerialize(batch: seq<WorkoutEntry>, now: int)
    requires forall k :: 0 <= k < |batch| ==> Transmittable(batch[k], now)
    ensures Decode(Serialize(batch), now) == batch
  {
    DecodeEntryTexts(batch, now);
    EntryTextsSeparatorFree(batch, now);
    if batch == [] {
      assert Split("", RECORD_SEPARATOR) == [""];
      assert DecodeEntry("", now) == None;
    } else {
      SplitJoin(EntryTexts(batch), RECORD_SEPARATOR);
    }
  }

  // ---------------------------------------------------------------------------
  // Log edits and the displayed order
  // ---------------------------------------------------------------------------

  /** Kotlin's `list - element`: the list without the first element equal to `x`. */
  function Minus<T(==)>(s: seq<T>, x: T): (r: seq<T>)
    ensures x !in s ==> r == s
    ensures x in s ==> |r| == |s| - 1
    ensures multiset(r) == multiset(s) - multiset{x}
    ensures forall y :: y in r ==> y in s
  {
    if s == [] then []
    else
      assert s == [s[0]] + s[1..];
      if s[0] == x then s[1..] else [s[0]] + Minus(s[1..], x)
  }

  /** Exactly the first occurrence of `x` is removed; everything else keeps its order. */
  lemma {:induction false} MinusRemovesFirst<T>(s: seq<T>, x: T, i: nat)
    requires i < |s| && s[i] == x && x !in s[..i]
    ensures Minus(s, x) == s[..i] + s[i + 1..]
  {
    if i > 0 {
      assert s[0] in s[..i];
      assert s[1..][..i - 1] == s[..i][1..];
      MinusRemovesFirst(s[1..], x, i - 1);
      assert s[..i] == [s[0]] + s[1..][..i - 1];
    }
  }

  /** The list in reverse order. */
  function Reversed<T>(s: seq<T>): (r: seq<T>)
    ensures |r| == |s|
    ensures forall k :: 0 <= k < |s| ==> r[k] == s[|s| - 1 - k]
  {
    if s == [] then [] else [s[|s| - 1]] + Reversed(s[..|s| - 1])
  }

  /** Appending to the log puts the new entries, newest first, at the top of the display. */
  lemma NewestFirst<T>(log: seq<T>, added: seq<T>)
    ensures Reversed(log + added) == Reversed(added) + Reversed(log)
  {
    var l, r := Reversed(log + added), Reversed(added) + Reversed(log);
    assert forall k :: 0 <= k < |l| ==> l[k] == r[k] by {
      forall k | 0 <= k < |l| ensures l[k] == r[k] {
        if k < |added| {
          assert l[k] == (log + added)[|log| + |added| - 1 - k];
        }
      }
    }
  }

  // ---------------------------------------------------------------------------
  // The activity
  // ---------------------------------------------------------------------------

  /** A message delivered to the activity together with the clock reading at delivery. */
  datatype Delivery = Delivery(event: MessageEvent, now: int)

  /** The entries a delivery adds to the log: the decoded payload on the workout path, nothing otherwise. */
  function AcceptedEntries(d: Delivery): seq<WorkoutEntry> {
    if d.event.path == WORKOUT_PATH then Decode(d.event.data, d.now) else []
  }

  /** The acknowledgment sent for an accepted workout message. */
  function Validation(targetNodeId: string): SentMessage {
    SentMessage(targetNodeId, WORKOUT_VALIDATED_PATH, "")
  }

  /** The acknowledgments owed for a history of deliveries: one per delivery that added entries, to its sender, in order. */
  function Validations(history: seq<Delivery>): (acks: seq<SentMessage>)
    ensures |acks| <= |history|
    ensures forall i :: 0 <= i < |acks| ==> acks[i].path == WORKOUT_VALIDATED_PATH && acks[i].data == ""
  {
    if history == [] then []
    else
      var last := history[|history| - 1];
      Validations(history[..|history| - 1])
        + (if AcceptedEntries(last) != [] then [Validation(last.event.sourceNodeId)] else [])
  }

  /** Appending a delivery appends its acknowledgment, if it has one, to the acknowledgments owed. */
  lemma ValidationsSnoc(history: seq<Delivery>, d: Delivery)
    ensures Validations(history + [d])
         == Validations(history) + (if AcceptedEntries(d) != [] then [Validation(d.event.sourceNodeId)] else [])
  {
    assert (history + [d])[..|history|] == history;
  }

  class MainActivity {
    /** The received workout log, oldest first. */
    var workoutLog: seq<WorkoutEntry>
    /** Every request handed to the message client, oldest first. */
    var sent: seq<SentMessage>
    /** Every message delivered to the reception handler, oldest first. */
    ghost var received: seq<Delivery>

    ghost predicate Valid()
      reads this
    {
      && sent == Validations(received)
      && forall e :: e in workoutLog ==> CountsFit(e)
    }

    constructor ()
      ensures Valid()
      ensures workoutLog == [] && sent == [] && received == []
    {
      workoutLog := [];
      sent := [];
      received := [];
    }

    /**
     * The reception handler: on the workout path, decode the payload; if at
     * least one entry decoded, append the entries to the log and acknowledge
     * to the source node. Any other path changes nothing.
     */
    method OnMessageReceived(messageEvent: MessageEvent, now: int)
      requires Valid()
      modifies this
      ensures Valid()
      ensures received == old(received) + [Delivery(messageEvent, now)]
      ensures workoutLog == old(workoutLog) + AcceptedEntries(Delivery(messageEvent, now))
      ensures sent == old(sent)
        + (if AcceptedEntries(Delivery(messageEvent, now)) != []
           then [SentMessage(messageEvent.sourceNodeId, WORKOUT_VALIDATED_PATH, "")]
           else [])
    {
      ValidationsSnoc(received, Delivery(messageEvent, now));
      received := received + [Delivery(messageEvent, now)];
      if messageEvent.path == WORKOUT_PATH {
        var message := messageEvent.data;
        var newEntries := Decode(message, now);
        if |newEntries| > 0 {
          workoutLog := workoutLog + newEntries;
          SendValidation(messageEvent.sourceNodeId);
        }
      }
    }

    /** Sends the empty acknowledgment on the validated path to `targetNodeId`. */
    method SendValidation(targetNodeId: string)
      modifies this`sent
      ensures sent == old(sent) + [SentMessage(targetNodeId, WORKOUT_VALIDATED_PATH, "")]
    {
      sent := sent + [Validation(targetNodeId)];
    }

    /** The "clear history" button. */
    method Clear()
      requires Valid()
      modifies this
      ensures Valid()
      ensures workoutLog == []
      ensures sent == old(sent) && received == old(received)
    {
      workoutLog := [];
    }

    /** The delete icon of one card: removes the first log element equal to `entry`. */
    method DeleteEntry(entry: WorkoutEntry)
      requires Valid()
      modifies this
      ensures Valid()
      ensures workoutLog == Minus(old(workoutLog), entry)
      ensures sent == old(sent) && received == old(received)
    {
      workoutLog := Minus(workoutLog, entry);
    }

    /** The list as shown on screen: newest entry first. */
    function Displayed(): (shown: seq<WorkoutEntry>)
      reads this
      ensures |shown| == |workoutLog|
      ensures forall k :: 0 <= k < |shown| ==> shown[k] == workoutLog[|workoutLog| - 1 - k]
    {
      Reversed(workoutLog)
    }
  }
}

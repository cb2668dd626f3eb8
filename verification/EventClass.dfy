/** Which class and profiles an event is processed under, and what becomes of an event of no known class. */
module EventClass {
  import opened Text
  import opened Values
  import opened Walk
  import opened Run

  /** The event names this class. */
  predicate OfClass(p: Pipeline, event: Item, uid: int64) {
    "class_uid" in event && AsInteger(p.decimal, event["class_uid"]) == Some(uid) && uid in p.classes
  }

  /** The event's metadata lists the profile. */
  predicate Lists(event: Item, profile: string) {
    && "metadata" in event && event["metadata"].Obj?
    && "profiles" in event["metadata"].fields && event["metadata"].fields["profiles"].Arr?
    && Str(profile) in event["metadata"].fields["profiles"].elems
  }

  /** An event of a known class is processed under that class, with exactly the profiles its metadata lists. */
  lemma ProcessedAs(p: Pipeline, event: Item, uid: int64)
    requires Usable(p) && OfClass(p, event, uid)
    ensures var profiles := EventProfiles(event);
      && (forall profile :: profile in profiles <==> Lists(event, profile))
      && Ready(ContextOf(p, p.classes[uid], profiles))
      && ProcessEvent(p, event) == Process(p, ContextOf(p, p.classes[uid], profiles), event)
  {
    hide Ready, Process;
    forall profile ensures profile in EventProfiles(event) <==> Lists(event, profile) {
      if Lists(event, profile) {
        assert Str(profile).Str? && Str(profile).text == profile;
      }
    }
  }

  /** Any other event stays as it is: one issue tells why, and so does one finding when the pipeline validates. */
  lemma NotProcessed(p: Pipeline, event: Item)
    requires Usable(p) && forall uid: int64 :: !OfClass(p, event, uid)
    ensures var absent := "class_uid" in event ==> event["class_uid"] == Null;
      var unreadable := !absent && AsInteger(p.decimal, event["class_uid"]) == None;
      var done := ProcessEvent(p, event);
      && done.item == event
      && (absent ==> done.trace == (if p.validating then [Find(49)] else []) + [Raise(ClassUIDMissing)])
      && (unreadable ==> done.trace == (if p.validating then [Find(50)] else []) + [Raise(ClassUIDWrongType)])
      && (!absent && !unreadable ==>
            done.trace == (if p.validating then [Find(1)] else []) + [Raise(ClassUIDUnknown)])
  {
    hide Process, Ready;
    if "class_uid" in event && AsInteger(p.decimal, event["class_uid"]).Some? {
      assert !OfClass(p, event, AsInteger(p.decimal, event["class_uid"]).value);
    }
  }
}

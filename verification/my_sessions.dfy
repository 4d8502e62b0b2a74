/** Frontend/src/pages/Learner/MySessions.jsx: the mapping of the learner's
    registered sessions onto display cards, and the room a Join click opens. */
module MySessions {
  import opened Common
  import opened Text
  import opened SessionLifecycle

  /** A registered session as the endpoint delivers it. */
  datatype Row = Row(sessionId: Id, topic: Option<string>, sessionDate: Option<string>, sessionTime: string)

  /** A card as the page keeps it. */
  datatype MyCard = MyCard(id: Id, topic: string, date: Option<string>, time: string)

  /** The topic shown when the row has none. */
  function FallbackTopic(id: Id): string {
    "Session #" + id
  }

  /** One row mapped to its card. */
  function ToCard(row: Row): (c: MyCard)
    ensures c.id == row.sessionId && c.date == row.sessionDate
    ensures TruthyStr(row.topic) ==> c.topic == row.topic.value
    ensures !TruthyStr(row.topic) ==> c.topic == FallbackTopic(row.sessionId)
    ensures c.topic != ""
    ensures c.time <= row.sessionTime && '.' !in c.time
    ensures |c.time| < |row.sessionTime| ==> row.sessionTime[|c.time|] == '.'
    ensures '.' !in row.sessionTime ==> c.time == row.sessionTime
  {
    MyCard(row.sessionId, OrStr(row.topic, Some(FallbackTopic(row.sessionId))).value,
           row.sessionDate, BeforeFirstDot(row.sessionTime))
  }

  /** The whole response mapped, one card per row in the same order. */
  function ToCards(rows: seq<Row>): (cs: seq<MyCard>)
    ensures |cs| == |rows|
    ensures forall i :: 0 <= i < |rows| ==> cs[i].id == rows[i].sessionId && cs[i].date == rows[i].sessionDate
    ensures forall i :: 0 <= i < |rows| ==> cs[i].time <= rows[i].sessionTime && '.' !in cs[i].time
    ensures forall i :: 0 <= i < |rows| ==> cs[i].topic != ""
    ensures forall i :: 0 <= i < |rows| ==> cs[i] == ToCard(rows[i])
  {
    seq(|rows|, i requires 0 <= i < |rows| => ToCard(rows[i]))
  }

  /** Mapping a concatenation maps each part. */
  lemma ToCardsAppend(a: seq<Row>, b: seq<Row>)
    ensures ToCards(a + b) == ToCards(a) + ToCards(b)
  {
  }

  const RoomPrefix := "tutor-session-"

  /** The Jitsi room a Join click opens. */
  function RoomName(id: Id): (r: string)
    ensures RoomPrefix <= r && r[|RoomPrefix|..] == id
  {
    RoomPrefix + id
  }

  /** The page opens the room on the same Jitsi host startMeeting uses. */
  function JoinUrl(id: Id): (u: string)
    ensures JitsiBase <= u && u[|JitsiBase|..] == RoomName(id)
  {
    JitsiBase + RoomName(id)
  }

  /** Different sessions open different rooms. */
  lemma RoomNameInjective(a: Id, b: Id)
    requires a != b
    ensures RoomName(a) != RoomName(b)
  {
    assert RoomName(a)[|RoomPrefix|..] == a;
    assert RoomName(b)[|RoomPrefix|..] == b;
  }

  /** The room this page opens is never the link startMeeting issued for a
      session whose id does not begin with 't' (an ObjectId is hexadecimal),
      so a learner who joins from here does not reach the tutor's room. */
  lemma JoinMissesMeetingLink(id: Id, now: nat)
    requires id != [] && id[0] != 't'
    ensures JoinUrl(id) != MeetingLink(id, now)
  {
    assert JoinUrl(id)[|JitsiBase|] == 't';
    assert MeetingLink(id, now)[|JitsiBase|] == id[0];
  }
}

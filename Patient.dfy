/** The patient's dashboard: the set of dates marked as taken, the streak
    and rate derived from it, the calendar dots, and the mark-taken action
    with its optional proof-photo upload. */
module Patient {
  import opened Records
  import Percent
  import Streaks

  /** The longest streak the dashboard counts. */
  const StreakCap: nat := 30

  /** The window the monthly rate divides by. */
  const MonthDays: nat := 30

  // ---------------------------------------------------------------------
  // Upload path
  // ---------------------------------------------------------------------

  /** `name.split('.').pop()`: the text after the last '.', or the whole
      name when it has none. */
  function FileExtension(name: string): string
    decreases |name|
  {
    if |name| == 0 then ""
    else if name[|name| - 1] == '.' then ""
    else FileExtension(name[..|name| - 1]) + [name[|name| - 1]]
  }

  /** The extension has no '.', is a suffix of the name, and is preceded by
      a '.' unless it is the whole name; a name without '.' is its own
      extension. */
  lemma {:induction false} FileExtensionIsLastPart(name: string)
    ensures '.' !in FileExtension(name)
    ensures |FileExtension(name)| <= |name|
    ensures FileExtension(name) == name[|name| - |FileExtension(name)|..]
    ensures |FileExtension(name)| < |name| ==> name[|name| - |FileExtension(name)| - 1] == '.'
    ensures '.' !in name ==> FileExtension(name) == name
    decreases |name|
  {
    if |name| > 0 && name[|name| - 1] != '.' {
      var init := name[..|name| - 1];
      FileExtensionIsLastPart(init);
      assert name == init + [name[|name| - 1]];
      assert '.' !in name ==> '.' !in init by {
        assert forall c :: c in init ==> c in name;
      }
    }
  }

  /** Whatever comes before the last '.', the extension is what follows it. */
  lemma {:induction false} FileExtensionAfterDot(prefix: string, ext: string)
    requires '.' !in ext
    ensures FileExtension(prefix + "." + ext) == ext
    decreases |ext|
  {
    var s := prefix + "." + ext;
    if |ext| > 0 {
      var init := ext[..|ext| - 1];
      assert s[..|s| - 1] == prefix + "." + init;
      assert '.' !in init by {
        assert forall c :: c in init ==> c in ext;
      }
      FileExtensionAfterDot(prefix, init);
      assert ext == init + [ext[|ext| - 1]];
    }
  }

  /** The decimal digits of `n`, as `${n}` writes them. */
  function Decimal(n: nat): (s: string)
    ensures |s| > 0
    ensures forall c :: c in s ==> '0' <= c <= '9'
  {
    var digit := "0123456789"[n % 10];
    if n < 10 then [digit] else Decimal(n / 10) + [digit]
  }

  /** The number a string of decimal digits denotes, most significant first. */
  function DecimalValue(s: string): (n: nat)
    requires forall c :: c in s ==> '0' <= c <= '9'
    ensures |s| > 0 && s[|s| - 1] != '0' ==> n > 0
  {
    if |s| == 0 then 0
    else
      var init := s[..|s| - 1];
      assert forall c :: c in init ==> c in s;
      assert '0' <= s[|s| - 1] <= '9' by { assert s[|s| - 1] in s; }
      10 * DecimalValue(init) + (s[|s| - 1] as int - '0' as int)
  }

  /** The digits `Decimal` writes denote `n`, with no leading zero, so the
      time stamp in the upload path is `n` written the way `${n}` writes it. */
  lemma {:induction false} DecimalRoundTrip(n: nat)
    ensures DecimalValue(Decimal(n)) == n
    ensures n >= 10 ==> Decimal(n)[0] != '0'
  {
    var s := Decimal(n);
    var digit := "0123456789"[n % 10];
    assert digit as int - '0' as int == n % 10;
    if n >= 10 {
      DecimalRoundTrip(n / 10);
      assert s[..|s| - 1] == Decimal(n / 10);
      if n / 10 < 10 {
        assert s[0] == "0123456789"[n / 10];
      } else {
        assert s[0] == Decimal(n / 10)[0];
      }
    }
  }

  /** The storage folder every proof photo goes to. */
  const ImageFolder: string := "medication-images/"

  /** `medication-images/<userId>-<stamp>.<ext>` */
  function UploadPath(userId: string, stamp: nat, fileName: string): (path: string)
    ensures |path| > |ImageFolder| && path[..|ImageFolder|] == ImageFolder
  {
    var name := userId + "-" + Decimal(stamp) + "." + FileExtension(fileName);
    assert (ImageFolder + name)[..|ImageFolder|] == ImageFolder;
    ImageFolder + name
  }

  /** The stored file keeps the extension of the chosen file, whatever the
      user id or the time stamp. */
  lemma UploadPathExtension(userId: string, stamp: nat, fileName: string)
    ensures FileExtension(UploadPath(userId, stamp, fileName)) == FileExtension(fileName)
  {
    var prefix := ImageFolder + userId + "-" + Decimal(stamp);
    var ext := FileExtension(fileName);
    FileExtensionIsLastPart(fileName);
    assert UploadPath(userId, stamp, fileName) == prefix + "." + ext;
    FileExtensionAfterDot(prefix, ext);
  }

  // ---------------------------------------------------------------------
  // Views of the taken-date set
  // ---------------------------------------------------------------------

  /** The today card shows a check mark exactly when today is a taken
      date; on that day the streak is at least one. */
  function TodayDone(takenDates: set<int>, today: int): (done: bool)
    ensures done <==> Streaks.CappedRun(takenDates, today, StreakCap) > 0
  {
    today in takenDates
  }

  /** `Math.round((takenDates.size / 30) * 100)`: zero only for an empty
      set, at most 100 up to 30 dates, and above 100 beyond. */
  function MonthlyRate(takenDates: set<int>): (rate: nat)
    ensures rate == 0 <==> |takenDates| == 0
    ensures |takenDates| <= MonthDays ==> rate <= 100
    ensures |takenDates| > MonthDays ==> rate > 100
  {
    var n := |takenDates|;
    MonthlyRateRange(n);
    Percent.RoundPercent(n, MonthDays)
  }

  lemma MonthlyRateRange(n: nat)
    ensures Percent.RoundPercent(n, MonthDays) == 0 <==> n == 0
    ensures n <= MonthDays ==> Percent.RoundPercent(n, MonthDays) <= 100
    ensures n > MonthDays ==> Percent.RoundPercent(n, MonthDays) > 100
  {
    Percent.RoundPercentZero(n, MonthDays);
    Percent.RoundPercentBounds(n, MonthDays);
    if n > MonthDays {
      assert Percent.RoundPercent(MonthDays + 1, MonthDays) == 103;
      Percent.RoundPercentMonotone(MonthDays + 1, n, MonthDays);
    }
  }

  /** The calendar dots: green on a taken date, red on a date before today
      that is not taken; never both, never yellow, never red today. */
  function DayMarkers(takenDates: set<int>, day: int, today: int): (r: Markers)
    ensures r.green <==> day in takenDates
    ensures r.red <==> day !in takenDates && day < today
    ensures !r.yellow
    ensures !(r.green && r.red)
  {
    var isTaken := day in takenDates;
    var isPast := day < today;
    var isCurrentDay := day == today;
    Markers(isTaken, !isTaken && isPast && !isCurrentDay, false)
  }

  /** Today's date carries the green dot exactly when the today card shows
      the check mark, and it never carries the red one. */
  lemma TodayMarkerMatchesTodayCard(takenDates: set<int>, today: int)
    ensures DayMarkers(takenDates, today, today).green == TodayDone(takenDates, today)
    ensures !DayMarkers(takenDates, today, today).red
  {
  }

  // ---------------------------------------------------------------------
  // Dashboard state
  // ---------------------------------------------------------------------

  /** What the store answered to the insert of a taken date. */
  datatype InsertResult = InsertOk | InsertError(code: string)

  /** The branch `handleMarkTaken` ended in. */
  datatype MarkOutcome = NoUser | UploadFailed | Marked | AlreadyMarked | MarkFailed

  /** The unique-violation code the store reports for a date already marked. */
  const DuplicateKey: string := "23505"

  /** `!userId` is false exactly for a non-empty id: no user and the empty
      id both count as signed out. */
  predicate SignedIn(userId: Option<string>) {
    userId.Some? && userId.value != ""
  }

  class PatientDashboard {
    var userId: Option<string>
    var takenDates: set<int>
    var isSubmitting: bool

    constructor ()
      ensures userId == None && takenDates == {} && !isSubmitting
    {
      userId := None;
      takenDates := {};
      isSubmitting := false;
    }

    /** The signed-in user, once the auth lookup answers. */
    method UserLoaded(user: Option<string>)
      modifies this`userId
      ensures userId == if user.Some? then user else old(userId)
    {
      if user.Some? {
        userId := user;
      }
    }

    /** The dates fetched for the user replace the set; without a user or
        without data the set is kept; an empty id counts as no user. */
    method TakenDatesLoaded(rows: Option<seq<int>>)
      modifies this`takenDates
      ensures takenDates == if SignedIn(userId) && rows.Some? then (set d | d in rows.value) else old(takenDates)
    {
      if SignedIn(userId) && rows.Some? {
        takenDates := set d | d in rows.value;
      }
    }

    /** Marks `date` as taken. Without a signed-in user nothing happens. With a photo,
        its upload path is built from the user id, the time stamp and the
        photo's extension, and a failed upload ends the action. The date
        joins the set only when the insert succeeds; a duplicate-key error
        or any other error leaves the set as it was. Submitting is over
        when the action ends. */
    method HandleMarkTaken(date: int, image: Option<File>, stamp: nat, uploadOk: bool, insert: InsertResult)
      returns (outcome: MarkOutcome, uploadPath: Option<string>)
      modifies this`takenDates, this`isSubmitting
      ensures uploadPath == if SignedIn(userId) && image.Some?
                            then Some(UploadPath(userId.value, stamp, image.value.name)) else None
      ensures outcome == if !SignedIn(userId) then NoUser
                         else if image.Some? && !uploadOk then UploadFailed
                         else if insert.InsertOk? then Marked
                         else if insert.code == DuplicateKey then AlreadyMarked
                         else MarkFailed
      ensures takenDates == if outcome == Marked then old(takenDates) + {date} else old(takenDates)
      ensures old(takenDates) <= takenDates
      ensures date in old(takenDates) ==> takenDates == old(takenDates)
      ensures !SignedIn(userId) ==> isSubmitting == old(isSubmitting)
      ensures SignedIn(userId) ==> !isSubmitting
    {
      uploadPath := None;
      if !SignedIn(userId) {
        return NoUser, None;
      }
      isSubmitting := true;
      if image.Some? {
        uploadPath := Some(UploadPath(userId.value, stamp, image.value.name));
        if !uploadOk {
          isSubmitting := false;
          return UploadFailed, uploadPath;
        }
      }
      match insert {
        case InsertOk =>
          takenDates := takenDates + {date};
          outcome := Marked;
        case InsertError(code) =>
          outcome := if code == DuplicateKey then AlreadyMarked else MarkFailed;
      }
      isSubmitting := false;
    }

    /** The day streak: consecutive taken dates walking back from today,
        stopped after 30. */
    method GetStreakCount(today: int) returns (streak: nat)
      ensures streak == Streaks.CappedRun(takenDates, today, StreakCap)
      ensures streak == Streaks.Min(Streaks.RunLength(takenDates, today), StreakCap)
      ensures streak <= StreakCap
      ensures streak == 0 <==> today !in takenDates
    {
      streak := 0;
      var currentDate := today;
      while currentDate in takenDates && streak < StreakCap
        invariant 0 <= streak <= StreakCap
        invariant currentDate == today - streak
        invariant streak + Streaks.CappedRun(takenDates, currentDate, StreakCap - streak)
               == Streaks.CappedRun(takenDates, today, StreakCap)
      {
        streak := streak + 1;
        currentDate := currentDate - 1;
      }
      Streaks.CappedRunIsCutRun(takenDates, today, StreakCap);
    }
  }

  /** Marking today as taken makes the streak at least one day, and at
      least one day longer than yesterday's streak, up to the cap. */
  lemma MarkTodayExtendsStreak(takenDates: set<int>, today: int)
    ensures Streaks.CappedRun(takenDates + {today}, today, StreakCap) >= 1
    ensures Streaks.CappedRun(takenDates + {today}, today, StreakCap)
         >= Streaks.Min(1 + Streaks.RunLength(takenDates, today - 1), StreakCap)
  {
    Streaks.CappedRunIsCutRun(takenDates + {today}, today, StreakCap);
    Streaks.RunLengthExtend(takenDates, today);
  }
}

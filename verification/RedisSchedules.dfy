/** The redisstore schedule store: one hash of text fields per schedule, changed by Lua scripts.
    Under the map that reads a schedule back from its hash, every operation is the step of the
    abstract machine that the file store takes. JSON is taken as an injective codec. */
module RedisSchedules {
  import opened Schedules
  import Decimal

  datatype Field =
    | SpecField | NextFireAt | LastFireAt | FireCount | Enabled | DeletionId | LastSession
    | CreatedAt | Retries | StartedAt | ProgressAt | Deadline

  datatype Cell = Json(spec: Spec) | Str(s: string)

  type Hash = map<Field, Cell>

  // ------------------------------------------------------------------ times and numbers as text

  const MinInt64 := -0x8000_0000_0000_0000
  const MaxInt64 := 0x7fff_ffff_ffff_ffff

  function NanoText(t: Time): string {
    match t case Zero => "0" case At(n) => Decimal.Text(n)
  }

  function ParseNano(s: string): Time {
    if s == "" || s == "0" then Zero
    else match Decimal.Parse(s)
         case None => Zero
         case Some(n) => if MinInt64 <= n <= MaxInt64 then At(n) else Zero
  }

  /** Times that survive the store: the epoch itself is read back as the zero time. */
  predicate Clean(t: Time) {
    t.At? ==> t.nanos != 0 && MinInt64 <= t.nanos <= MaxInt64
  }

  lemma NanoRoundTrip(t: Time)
    ensures ParseNano(NanoText(t)) == t <==> Clean(t)
    ensures Clean(t) ==> (NanoText(t) == "0" <==> t.Zero?) && NanoText(t) != ""
  {
    if t.At? {
      Decimal.RoundTrip(t.nanos);
      Decimal.Injective(t.nanos, 0);
      assert Decimal.Text(0) == "0";
    }
  }

  lemma NanoInjective(t: Time, u: Time)
    requires Clean(t) && Clean(u)
    ensures NanoText(t) == NanoText(u) <==> t == u
  {
    NanoRoundTrip(t);
    NanoRoundTrip(u);
  }

  function ParseIntOr(s: string, otherwise: int): int {
    match Decimal.Parse(s) case None => otherwise case Some(n) => n
  }

  function BoolText(b: bool): string {
    if b then "1" else "0"
  }

  // ------------------------------------------------------------------ reading a hash

  /** A missing field reads as the empty string. */
  function Get(h: Hash, f: Field): string {
    if f in h && h[f].Str? then h[f].s else ""
  }

  function StateOf(h: Hash): State {
    State(
      ParseNano(Get(h, NextFireAt)), ParseNano(Get(h, LastFireAt)), ParseIntOr(Get(h, FireCount), 0),
      Get(h, Enabled) == "1", Get(h, DeletionId), Get(h, LastSession), ParseIntOr(Get(h, Retries), 0),
      ParseNano(Get(h, StartedAt)), ParseNano(Get(h, ProgressAt)), ParseNano(Get(h, Deadline)))
  }

  predicate HasSpec(h: Hash) {
    SpecField in h && h[SpecField].Json?
  }

  function FromHash(h: Hash): Schedule
    requires HasSpec(h)
  {
    Schedule(h[SpecField].spec, StateOf(h))
  }

  predicate OptionalTime(s: string, t: Time) {
    (s == "" && t.Zero?) || (s == NanoText(t) && Clean(t))
  }

  /** The hash is written the way the store writes schedule `s`. */
  predicate Encodes(h: Hash, s: Schedule) {
    && SpecField in h && h[SpecField] == Json(s.spec)
    && Get(h, NextFireAt) == NanoText(s.state.nextFireAt) && Clean(s.state.nextFireAt)
    && Get(h, LastFireAt) == NanoText(s.state.lastFireAt) && Clean(s.state.lastFireAt)
    && Get(h, FireCount) == Decimal.Text(s.state.fireCount)
    && Enabled in h && Get(h, Enabled) == BoolText(s.state.enabled)
    && Get(h, DeletionId) == s.state.deletionId
    && Get(h, LastSession) == s.state.lastSession
    && Get(h, Retries) == Decimal.Text(s.state.retries)
    && OptionalTime(Get(h, StartedAt), s.state.startedAt)
    && OptionalTime(Get(h, ProgressAt), s.state.progressAt)
    && OptionalTime(Get(h, Deadline), s.state.deadline)
  }

  lemma OptionalTimeReads(s: string, t: Time)
    requires OptionalTime(s, t)
    ensures ParseNano(s) == t
    ensures s == "" || s == "0" <==> t.Zero?
  {
    NanoRoundTrip(t);
  }

  /** What is written reads back. */
  lemma EncodedReadsBack(h: Hash, s: Schedule)
    requires Encodes(h, s)
    ensures HasSpec(h) && FromHash(h) == s
  {
    NanoRoundTrip(s.state.nextFireAt);
    NanoRoundTrip(s.state.lastFireAt);
    Decimal.RoundTrip(s.state.fireCount);
    Decimal.RoundTrip(s.state.retries);
    OptionalTimeReads(Get(h, StartedAt), s.state.startedAt);
    OptionalTimeReads(Get(h, ProgressAt), s.state.progressAt);
    OptionalTimeReads(Get(h, Deadline), s.state.deadline);
  }

  predicate CleanSchedule(s: Schedule) {
    && Clean(s.state.nextFireAt) && Clean(s.state.lastFireAt)
    && Clean(s.state.startedAt) && Clean(s.state.progressAt) && Clean(s.state.deadline)
  }

  /** The fields of a new schedule. The deletion mark is not among them. The creation time is part of the
      specification's body here; the field that repeats it is written and never read. */
  function SeedHash(s: Schedule, enabled: bool): Hash {
    map[SpecField := Json(s.spec),
        NextFireAt := Str(NanoText(s.state.nextFireAt)),
        LastFireAt := Str(NanoText(s.state.lastFireAt)),
        FireCount := Str(Decimal.Text(s.state.fireCount)),
        Enabled := Str(BoolText(enabled)),
        LastSession := Str(s.state.lastSession),
        CreatedAt := Str(s.spec.body),
        Retries := Str(Decimal.Text(s.state.retries)),
        StartedAt := Str(NanoText(s.state.startedAt)),
        ProgressAt := Str(NanoText(s.state.progressAt)),
        Deadline := Str(NanoText(s.state.deadline))]
  }

  // ------------------------------------------------------------------ what each script writes

  lemma SeedEncodes(s: Schedule)
    requires CleanSchedule(s) && s.state.deletionId == ""
    ensures Encodes(SeedHash(s, Seeded(s).state.enabled), Seeded(s))
  {
    hide Decimal.Text;
  }

  lemma ResaveEncodes(h: Hash, s: Schedule, spec: Spec)
    requires Encodes(h, s)
    ensures Encodes(h[SpecField := Json(spec)][CreatedAt := Str(spec.body)], s.(spec := spec))
  {
    hide Decimal.Text;
  }

  lemma EnableEncodes(h: Hash, s: Schedule, enabled: bool)
    requires Encodes(h, s)
    ensures Encodes(h[Enabled := Str(BoolText(enabled))], s.(state := s.state.(enabled := enabled)))
  {
    hide Decimal.Text;
  }

  lemma MarkEncodes(h: Hash, s: Schedule, d: string)
    requires Encodes(h, s)
    ensures Encodes(h[Enabled := Str("0")][DeletionId := Str(d)], s.(state := s.state.(enabled := false, deletionId := d)))
  {
    hide Decimal.Text;
  }

  function StampHash(h: Hash, now: Time, nextFire: Time, count: string, enabled: string): Hash {
    h + map[LastFireAt := Str(NanoText(now)), NextFireAt := Str(NanoText(nextFire)),
            FireCount := Str(count), LastSession := Str(Pending), Enabled := Str(enabled)]
  }

  function IdleHash(h: Hash): Hash {
    h + map[StartedAt := Str("0"), ProgressAt := Str("0"), Deadline := Str("0")]
  }

  /** All fields that a claim sets, in one command. */
  function AdvanceHash(h: Hash, now: Time, nextFire: Time, count: string, enabled: string): Hash {
    IdleHash(StampHash(h, now, nextFire, count, enabled))
  }

  lemma ZeroText()
    ensures NanoText(Zero) == "0" && Clean(Zero)
  {
  }

  lemma StampEncodes(h: Hash, s: Schedule, now: Time, nextFire: Time, enabled: bool)
    requires Encodes(h, s) && Clean(now) && Clean(nextFire)
    ensures Encodes(StampHash(h, now, nextFire, Decimal.Text(s.state.fireCount + 1), BoolText(enabled)),
                    s.(state := s.state.(lastFireAt := now, nextFireAt := nextFire, fireCount := s.state.fireCount + 1,
                                         lastSession := Pending, enabled := enabled)))
  {
    hide Decimal.Text, NanoText, Clean, OptionalTime;
  }

  lemma IdleEncodes(h: Hash, s: Schedule)
    requires Encodes(h, s)
    ensures Encodes(IdleHash(h), s.(state := s.state.(startedAt := Zero, progressAt := Zero, deadline := Zero)))
  {
    hide Decimal.Text, NanoText, Clean;
    ZeroText();
  }

  lemma AdvanceEncodes(h: Hash, s: Schedule, now: Time, nextFire: Time)
    requires Encodes(h, s) && Clean(now) && Clean(nextFire)
    ensures Encodes(AdvanceHash(h, now, nextFire, Decimal.Text(s.state.fireCount + 1), BoolText(s.state.enabled && !nextFire.Zero?)),
                    Advanced(s, now, nextFire))
  {
    hide Encodes;
    var enabled := s.state.enabled && !nextFire.Zero?;
    StampEncodes(h, s, now, nextFire, enabled);
    IdleEncodes(StampHash(h, now, nextFire, Decimal.Text(s.state.fireCount + 1), BoolText(enabled)),
                s.(state := s.state.(lastFireAt := now, nextFireAt := nextFire, fireCount := s.state.fireCount + 1,
                                     lastSession := Pending, enabled := enabled)));
  }

  function ReArmHash(h: Hash, nextFire: Time, retries: string): Hash {
    h + map[Enabled := Str("1"), NextFireAt := Str(NanoText(nextFire)), Retries := Str(retries)]
  }

  lemma ReArmEncodes(h: Hash, s: Schedule, nextFire: Time)
    requires Encodes(h, s) && Clean(nextFire)
    ensures Encodes(ReArmHash(h, nextFire, Decimal.Text(s.state.retries + 1)),
                    s.(state := s.state.(enabled := true, nextFireAt := nextFire, retries := s.state.retries + 1)))
  {
    hide Decimal.Text;
  }

  function StartHash(h: Hash, f: Fire, progressAt: Time): Hash {
    h + map[LastSession := Str(f.session), StartedAt := Str(NanoText(f.startedAt)),
            ProgressAt := Str(NanoText(progressAt)), Deadline := Str(NanoText(f.deadline))]
  }

  lemma StartEncodes(h: Hash, s: Schedule, f: Fire)
    requires Encodes(h, s) && Clean(f.startedAt) && Clean(f.progressAt) && Clean(f.deadline)
    ensures Encodes(StartHash(h, f, if f.progressAt.Zero? then f.startedAt else f.progressAt), Started(s, f))
  {
    hide Decimal.Text, NanoText, Clean;
  }

  lemma ProgressEncodes(h: Hash, s: Schedule, at: Time)
    requires Encodes(h, s) && Clean(at)
    ensures Encodes(h[ProgressAt := Str(NanoText(at))], s.(state := s.state.(progressAt := at)))
  {
    hide Decimal.Text;
  }

  lemma EndEncodes(h: Hash, s: Schedule, f: Fire)
    requires Encodes(h, s)
    ensures Encodes(h[LastSession := Str(f.session)] - {StartedAt, ProgressAt, Deadline}, Ended(s, f))
  {
    hide Decimal.Text;
  }

  /** What the scripts learn from the fields they read. */
  lemma FieldsTell(h: Hash, s: Schedule)
    requires Encodes(h, s)
    ensures HasSpec(h) && FromHash(h) == s
    ensures Get(h, Enabled) == BoolText(s.state.enabled) && Get(h, DeletionId) == s.state.deletionId
    ensures Get(h, LastSession) == s.state.lastSession
    ensures Get(h, NextFireAt) == "" || Get(h, NextFireAt) == "0" <==> s.state.nextFireAt.Zero?
    ensures Get(h, StartedAt) == "" || Get(h, StartedAt) == "0" <==> s.state.startedAt.Zero?
    ensures ParseNano(Get(h, NextFireAt)) == s.state.nextFireAt && ParseNano(Get(h, ProgressAt)) == s.state.progressAt
    ensures ParseIntOr(Get(h, FireCount), 0) == s.state.fireCount && ParseIntOr(Get(h, Retries), 0) == s.state.retries
    ensures forall now :: Clean(now) ==> (Get(h, LastFireAt) == NanoText(now) <==> s.state.lastFireAt == now)
  {
    hide NanoText, ParseNano, Decimal.Parse;
    EncodedReadsBack(h, s);
    NanoRoundTrip(s.state.nextFireAt);
    OptionalTimeReads(Get(h, StartedAt), s.state.startedAt);
    forall now | Clean(now) ensures Get(h, LastFireAt) == NanoText(now) <==> s.state.lastFireAt == now {
      NanoInjective(s.state.lastFireAt, now);
    }
  }

  /** The replies of the deletion script that stand for errors. */
  const Reserved := {"NOT_FOUND", "ACTIVE", "INVALID"}

  class RedisStore {
    var hashes: map<string, Hash>
    var fires: map<string, Fire>
    const clock: Clock

    /** The schedules that the hashes encode. */
    ghost var schedules: map<string, Schedule>

    ghost predicate Valid()
      reads this
    {
      hashes.Keys == schedules.Keys && forall n :: n in hashes ==> Encodes(hashes[n], schedules[n])
    }

    ghost function View(): Store
      reads this
    {
      Store(schedules, fires)
    }

    /** The view is what scheduleFromHash reads. */
    lemma ViewIsRead(n: string)
      requires Valid() && n in hashes
      ensures HasSpec(hashes[n]) && View().schedules[n] == FromHash(hashes[n])
    {
      FieldsTell(hashes[n], schedules[n]);
    }

    constructor (clock: Clock)
      ensures Valid() && View() == Store(map[], map[]) && this.clock == clock
    {
      this.clock := clock;
      hashes, fires, schedules := map[], map[], map[];
    }

    /** A script replaces the fields of one hash. */
    method Write(name: string, h: Hash, ghost s: Schedule)
      requires Valid() && Encodes(h, s)
      modifies this`hashes, this`schedules
      ensures Valid() && hashes == old(hashes)[name := h] && schedules == old(schedules)[name := s]
    {
      hide Encodes, NanoText, ParseNano, Decimal.Text, Decimal.Parse;
      hashes := hashes[name := h];
      schedules := schedules[name := s];
    }

    method Remove(name: string)
      requires Valid()
      modifies this`hashes, this`schedules
      ensures Valid() && schedules == old(schedules) - {name}
    {
      hide Encodes, NanoText, ParseNano, Decimal.Text, Decimal.Parse;
      hashes := hashes - {name};
      schedules := schedules - {name};
    }

    method Create(s: Schedule) returns (r: Outcome)
      requires Valid() && CleanSchedule(s) && s.state.deletionId == ""
      modifies this
      ensures Valid() && (View(), r) == Apply(clock, old(View()), Op.Create(s))
    {
      hide Encodes, NanoText, ParseNano, Decimal.Text, Decimal.Parse;
      if s.spec.name in hashes { return Exists; }
      var enabled := s.state.enabled;
      if s.state.nextFireAt.Zero? && !s.state.enabled && s.state.fireCount == 0 { enabled := true; }
      SeedEncodes(s);
      Write(s.spec.name, SeedHash(s, enabled), Seeded(s));
      return Done;
    }

    method Save(s: Schedule) returns (r: Outcome)
      requires Valid() && CleanSchedule(s) && s.state.deletionId == ""
      modifies this
      ensures Valid() && (View(), r) == Apply(clock, old(View()), Op.Save(s))
    {
      hide Encodes, NanoText, ParseNano, Decimal.Text, Decimal.Parse;
      if s.spec.name !in hashes {
        var enabled := s.state.enabled;
        if s.state.nextFireAt.Zero? && !s.state.enabled && s.state.fireCount == 0 { enabled := true; }
        SeedEncodes(s);
        Write(s.spec.name, SeedHash(s, enabled), Seeded(s));
        return Done;
      }
      var h := hashes[s.spec.name];
      FieldsTell(h, schedules[s.spec.name]);
      if Get(h, DeletionId) != "" { return Deleting; }
      ResaveEncodes(h, schedules[s.spec.name], s.spec);
      Write(s.spec.name, h[SpecField := Json(s.spec)][CreatedAt := Str(s.spec.body)], schedules[s.spec.name].(spec := s.spec));
      return Done;
    }

    method SetEnabled(name: string, enabled: bool) returns (r: Outcome)
      requires Valid()
      modifies this
      ensures Valid() && (View(), r) == Apply(clock, old(View()), Op.SetEnabled(name, enabled))
    {
      hide Encodes, NanoText, ParseNano, Decimal.Text, Decimal.Parse;
      if name !in hashes { return NotFound; }
      var h := hashes[name];
      ghost var s := schedules[name];
      FieldsTell(h, s);
      if Get(h, DeletionId) != "" { return Deleting; }
      EnableEncodes(h, s, enabled);
      Write(name, h[Enabled := Str(BoolText(enabled))], s.(state := s.state.(enabled := enabled)));
      return Done;
    }

    method Delete(name: string) returns (r: Outcome)
      requires Valid()
      modifies this
      ensures Valid() && (View(), r) == Apply(clock, old(View()), Op.Delete(name))
    {
      hide Encodes, NanoText, ParseNano, Decimal.Text, Decimal.Parse;
      if name !in hashes { return Done; }
      FieldsTell(hashes[name], schedules[name]);
      if Get(hashes[name], DeletionId) != "" { return Deleting; }
      Remove(name);
      return Done;
    }

    /** The deletion script. */
    method EvalBeginDelete(name: string, deletionId: string) returns (reply: string)
      requires Valid() && deletionId != ""
      modifies this
      ensures Valid() && View() == Apply(clock, old(View()), Op.BeginDelete(name, deletionId)).0
      ensures reply == match Apply(clock, old(View()), Op.BeginDelete(name, deletionId)).1
                       case NotFound => "NOT_FOUND"
                       case ActiveFire => "ACTIVE"
                       case Returned(s) => s.state.deletionId
                       case _ => "INVALID"
    {
      hide Encodes, NanoText, ParseNano, Decimal.Text, Decimal.Parse;
      if name !in hashes { return "NOT_FOUND"; }
      var h := hashes[name];
      ghost var s := schedules[name];
      FieldsTell(h, s);
      if Get(h, DeletionId) != "" { return Get(h, DeletionId); }
      var started := Get(h, StartedAt);
      if Get(h, LastSession) == Pending || (started != "" && started != "0") { return "ACTIVE"; }
      MarkEncodes(h, s, deletionId);
      Write(name, h[Enabled := Str("0")][DeletionId := Str(deletionId)], s.(state := s.state.(enabled := false, deletionId := deletionId)));
      return deletionId;
    }

    /** The stored state always follows the machine. The answer does too, unless the schedule is or can be
        marked and the id in force, the stored one or else the argument, reads like one of the script's
        error replies: then the mark stands and the caller sees an error. */
    method BeginDelete(name: string, deletionId: string) returns (r: Outcome)
      requires Valid() && deletionId != ""
      modifies this
      ensures Valid() && View() == Apply(clock, old(View()), Op.BeginDelete(name, deletionId)).0
      ensures r == Apply(clock, old(View()), Op.BeginDelete(name, deletionId)).1
              <==> (name in old(schedules) && (old(schedules)[name].state.deletionId != "" || !Active(old(schedules)[name])) ==>
                      (if old(schedules)[name].state.deletionId != "" then old(schedules)[name].state.deletionId else deletionId) !in Reserved)
    {
      hide Encodes, NanoText, ParseNano, Decimal.Text, Decimal.Parse;
      var reply := EvalBeginDelete(name, deletionId);
      if reply == "NOT_FOUND" { return NotFound; }
      if reply == "ACTIVE" { return ActiveFire; }
      if reply == "INVALID" { return EmptyId; }
      FieldsTell(hashes[name], schedules[name]);
      return Returned(FromHash(hashes[name]));
    }

    method CompleteDelete(name: string, deletionId: string) returns (r: Outcome)
      requires Valid() && deletionId != ""
      modifies this
      ensures Valid() && (View(), r) == Apply(clock, old(View()), Op.CompleteDelete(name, deletionId))
    {
      hide Encodes, NanoText, ParseNano, Decimal.Text, Decimal.Parse;
      if name !in hashes { return Deleting; }
      FieldsTell(hashes[name], schedules[name]);
      if Get(hashes[name], DeletionId) != deletionId { return Deleting; }
      Remove(name);
      return Done;
    }

    /** The write that both claim scripts end with. The caller gets back the five fields of the reply:
        the retry count of what it returns is zero, the stored one is kept. */
    method Advance(name: string, now: Time, nextFire: Time) returns (r: Outcome)
      requires Valid() && name in schedules && schedules[name].state.enabled && schedules[name].state.deletionId == ""
      requires now.At? && Clean(now) && Clean(nextFire)
      modifies this`hashes, this`schedules
      ensures Valid() && schedules == old(schedules)[name := Advanced(old(schedules)[name], now, nextFire)]
      ensures r == Returned(schedules[name].(state := schedules[name].state.(retries := 0)))
    {
      hide AdvanceHash;
      hide Encodes, NanoText, ParseNano, Decimal.Text, Decimal.Parse;
      var h := hashes[name];
      ghost var s := schedules[name];
      FieldsTell(h, s);
      var count := Decimal.Text(ParseIntOr(Get(h, FireCount), 0) + 1);
      var enabled := Get(h, Enabled);
      NanoRoundTrip(now);
      NanoRoundTrip(nextFire);
      Decimal.RoundTrip(s.state.fireCount + 1);
      if NanoText(nextFire) == "0" { enabled := "0"; }
      AdvanceEncodes(h, s, now, nextFire);
      Write(name, AdvanceHash(h, now, nextFire, count, enabled), Advanced(s, now, nextFire));
      return Returned(Schedule(h[SpecField].spec,
                               State(ParseNano(NanoText(nextFire)), ParseNano(NanoText(now)), ParseIntOr(count, 0), enabled == "1",
                                     "", Pending, 0, Zero, Zero, Zero)));
    }

    method Claim(name: string, now: Time, nextFire: Time) returns (r: Outcome)
      requires Valid() && now.At? && Clean(now) && Clean(nextFire)
      modifies this
      ensures Valid() && View() == Apply(clock, old(View()), Op.Claim(name, now, nextFire)).0
      ensures r.Returned? <==> Apply(clock, old(View()), Op.Claim(name, now, nextFire)).1.Returned?
      ensures !r.Returned? ==> r == NotFound
      ensures r.Returned? ==> name in schedules && r.s == schedules[name].(state := schedules[name].state.(retries := 0))
    {
      hide Encodes, NanoText, ParseNano, Decimal.Text, Decimal.Parse;
      if name !in hashes { return NotFound; }
      var h := hashes[name];
      FieldsTell(h, schedules[name]);
      if Get(h, Enabled) == "0" || Get(h, DeletionId) != "" { return NotFound; }
      var nfa := Get(h, NextFireAt);
      if nfa == "" || nfa == "0" { return NotFound; }
      if Later(clock, ParseNano(nfa), now) { return NotFound; }
      var max := h[SpecField].spec.maxFires;
      if max > 0 && ParseIntOr(Get(h, FireCount), 0) >= max { return NotFound; }
      r := Advance(name, now, nextFire);
    }

    method ClaimNow(name: string, now: Time, nextFire: Time) returns (r: Outcome)
      requires Valid() && now.At? && Clean(now) && Clean(nextFire)
      modifies this
      ensures Valid() && View() == Apply(clock, old(View()), Op.ClaimNow(name, now, nextFire)).0
      ensures r.Returned? <==> Apply(clock, old(View()), Op.ClaimNow(name, now, nextFire)).1.Returned?
      ensures !r.Returned? ==> r == NotFound
      ensures r.Returned? ==> name in schedules && r.s == schedules[name].(state := schedules[name].state.(retries := 0))
    {
      hide Encodes, NanoText, ParseNano, Decimal.Text, Decimal.Parse;
      if name !in hashes { return NotFound; }
      var h := hashes[name];
      FieldsTell(h, schedules[name]);
      if Get(h, Enabled) == "0" || Get(h, DeletionId) != "" { return NotFound; }
      var max := h[SpecField].spec.maxFires;
      if max > 0 && ParseIntOr(Get(h, FireCount), 0) >= max { return NotFound; }
      if Get(h, LastFireAt) == NanoText(now) { return NotFound; }
      r := Advance(name, now, nextFire);
    }

    method ReArmOneShot(name: string, nextFire: Time) returns (r: Outcome)
      requires Valid() && Clean(nextFire)
      modifies this
      ensures Valid() && (View(), r) == Apply(clock, old(View()), Op.ReArmOneShot(name, nextFire))
    {
      hide Encodes, NanoText, ParseNano, Decimal.Text, Decimal.Parse;
      if name !in hashes { return NotFound; }
      var h := hashes[name];
      ghost var s := schedules[name];
      FieldsTell(h, s);
      if Get(h, DeletionId) != "" { return Deleting; }
      ReArmEncodes(h, s, nextFire);
      Write(name, ReArmHash(h, nextFire, Decimal.Text(ParseIntOr(Get(h, Retries), 0) + 1)),
            s.(state := s.state.(enabled := true, nextFireAt := nextFire, retries := s.state.retries + 1)));
      return Done;
    }

    method RecordFireStart(name: string, fire: Fire) returns (r: Outcome)
      requires Valid() && Clean(fire.startedAt) && Clean(fire.progressAt) && Clean(fire.deadline)
      modifies this
      ensures Valid() && (View(), r) == Apply(clock, old(View()), FireStart(name, fire))
    {
      hide Encodes, NanoText, ParseNano, Decimal.Text, Decimal.Parse;
      if name !in hashes { return NotFound; }
      if fire.id in fires {
        if fires[fire.id].stop != "" { return Done; }
        if fires[fire.id].startedAt == fire.startedAt { return Done; }
      }
      ghost var s := schedules[name];
      var progressAt := if fire.progressAt.Zero? then fire.startedAt else fire.progressAt;
      StartEncodes(hashes[name], s, fire);
      Write(name, StartHash(hashes[name], fire, progressAt), Started(s, fire));
      fires := fires[fire.id := fire.(stop := "")];
      return Done;
    }

    method RecordFireProgress(name: string, fireId: string, at: Time) returns (r: Outcome)
      requires Valid() && Clean(at)
      modifies this
      ensures Valid() && (View(), r) == Apply(clock, old(View()), FireProgress(name, fireId, at))
    {
      hide Encodes, NanoText, ParseNano, Decimal.Text, Decimal.Parse;
      if name !in hashes { return NotFound; }
      var h := hashes[name];
      ghost var s := schedules[name];
      FieldsTell(h, s);
      if !at.Zero? && After(at, ParseNano(Get(h, ProgressAt))) {
        ProgressEncodes(h, s, at);
        Write(name, h[ProgressAt := Str(NanoText(at))], s.(state := s.state.(progressAt := at)));
      }
      if fireId !in fires { return Done; }
      var rec := fires[fireId];
      if rec.stop != "" { return Done; }
      if at.Zero? || !After(at, rec.progressAt) { return Done; }
      fires := fires[fireId := rec.(progressAt := at)];
      return Done;
    }

    method RecordFire(fire: Fire) returns (r: Outcome)
      requires Valid()
      modifies this
      ensures Valid() && (View(), r) == Apply(clock, old(View()), FireEnd(fire))
    {
      hide Encodes, NanoText, ParseNano, Decimal.Text, Decimal.Parse;
      if fire.id in fires && fires[fire.id].stop != "" { return Done; }
      if fire.name !in hashes { return NotFound; }
      ghost var s := schedules[fire.name];
      EndEncodes(hashes[fire.name], s, fire);
      Write(fire.name, hashes[fire.name][LastSession := Str(fire.session)] - {StartedAt, ProgressAt, Deadline}, Ended(s, fire));
      fires := fires[fire.id := fire];
      return Done;
    }

    /** The keyspace scan. It does not look at the deletion mark. */
    method Due(order: seq<string>, now: Time) returns (due: seq<string>)
      requires Valid() && (set n | n in order) == hashes.Keys
      ensures forall n :: n in due <==> n in schedules && IsDue(schedules[n], now)
    {
      hide Encodes, NanoText, ParseNano, Decimal.Text, Decimal.Parse;
      due := [];
      forall k | 0 <= k < |order| ensures order[k] in hashes { assert order[k] in (set n | n in order); }
      for k := 0 to |order|
        invariant forall n :: n in due <==> n in order[..k] && n in schedules && IsDue(schedules[n], now)
      {
        assert order[..k + 1] == order[..k] + [order[k]];
        FieldsTell(hashes[order[k]], schedules[order[k]]);
        var sc := FromHash(hashes[order[k]]);
        if !sc.state.enabled { continue; }
        if sc.state.nextFireAt.Zero? || After(sc.state.nextFireAt, now) { continue; }
        if sc.spec.maxFires > 0 && sc.state.fireCount >= sc.spec.maxFires { continue; }
        due := due + [order[k]];
      }
      assert order[..|order|] == order;
      forall n | n in schedules ensures n in order { assert n in (set m | m in order); }
    }
  }
}

/** State bound to one sensor: the no-finger ImageBase, the calibration, and the preprocessor built from both. */
module SensorCache {
  import opened Common
  import opened Image

  const ID_LEN: nat := 16
  const PAYLOAD_LEN: nat := 0x224b0
  const FRAME_BYTES: nat := 2 * FRAME_PIXELS

  type SensorId = b: Bytes | |b| == ID_LEN witness seq(ID_LEN, _ => 0)
  type Frame = f: seq<Sample> | |f| == FRAME_PIXELS witness seq(FRAME_PIXELS, _ => 0)
  type Clock = b: Bytes | |b| == 8 witness seq(8, _ => 0)

  // ---- the ImageBase file ------------------------------------------------------------

  function PackSamples(f: seq<Sample>): (b: Bytes)
    ensures |b| == 2 * |f|
  {
    if f == [] then [] else [f[0] % 256, f[0] / 256] + PackSamples(f[1..])
  }

  function UnpackSamples(b: Bytes): (f: seq<Sample>)
    requires |b| % 2 == 0
    ensures 2 * |f| == |b|
  {
    if b == [] then []
    else
      var lo: int, hi: int := b[0], b[1];
      [lo + 256 * hi] + UnpackSamples(b[2..])
  }

  lemma {:induction false} UnpackOfPack(f: seq<Sample>)
    ensures UnpackSamples(PackSamples(f)) == f
  {
    if f != [] {
      UnpackOfPack(f[1..]);
      assert PackSamples(f)[2..] == PackSamples(f[1..]);
      assert f == [f[0]] + f[1..];
    }
  }

  /** Magic "GDX0" and version 2. */
  const FILE_HEAD: seq<Byte> := [0x47, 0x44, 0x58, 0x30, 2]

  function BaseFile(id: SensorId, capturedAt: Clock, frame: Frame): (file: Bytes)
    ensures |file| == 32 + FRAME_BYTES
  {
    FILE_HEAD + [0, 0, 0] + capturedAt + id + PackSamples(frame)
  }

  /** Size, magic, version and sensor id must all match. */
  function LoadBase(file: Option<Bytes>, id: SensorId): Option<Frame> {
    if file.None? || |file.value| != 32 + FRAME_BYTES then None
    else if file.value[..5] != FILE_HEAD || file.value[16..32] != id then None
    else Some(UnpackSamples(file.value[32..]))
  }

  /** A saved ImageBase loads back for its own sensor, and for no other. */
  lemma LoadOfBaseFile(id: SensorId, capturedAt: Clock, frame: Frame, reader: SensorId)
    ensures LoadBase(Some(BaseFile(id, capturedAt, frame)), reader) == if reader == id then Some(frame) else None
  {
    var file := BaseFile(id, capturedAt, frame);
    BaseFields(capturedAt, id, PackSamples(frame));
    UnpackOfPack(frame);
  }

  /** Exactly the files of 10272 bytes with the magic "GDX0", version 2 and this sensor id are loaded. */
  lemma LoadBaseExactly(file: Bytes, id: SensorId)
    ensures LoadBase(Some(file), id).Some?
            <==> |file| == 10272 && file[..5] == [0x47, 0x44, 0x58, 0x30, 2] && file[16..32] == id
    ensures LoadBase(Some(file), id).Some? ==> LoadBase(Some(file), id).value == UnpackSamples(file[32..])
  {
  }

  lemma BaseFields(capturedAt: Clock, id: SensorId, packed: Bytes)
    ensures var file := FILE_HEAD + [0, 0, 0] + capturedAt + id + packed;
            file[..5] == FILE_HEAD && file[16..32] == id && file[32..] == packed
  {
  }

  // ---- the engine, as far as the cache depends on it -------------------------------------

  /** Calibration payloads as the engine sees them; every operation may refuse. */
  datatype Engine = Engine(
    valid: Bytes -> bool,
    generate: Frame -> Option<Bytes>,
    rebase: (Bytes, Frame) -> Option<Bytes>,
    accepts: (Bytes, Frame) -> bool)

  datatype Preprocessor = Preprocessor(calibration: Bytes, imageBase: Frame)

  datatype LoadResult = Loaded(payload: Bytes) | Missing | Refused

  /** The calibration file: sensor id, then a payload the engine must accept. */
  function LoadCalibration(engine: Engine, file: Option<Bytes>, id: SensorId): LoadResult {
    if file.None? then Missing
    else if |file.value| != ID_LEN + PAYLOAD_LEN || file.value[..ID_LEN] != id then Refused
    else if !engine.valid(file.value[ID_LEN..]) then Refused
    else Loaded(file.value[ID_LEN..])
  }

  /** A calibration file is loaded exactly if it has its size, names this sensor, and the engine accepts its payload. */
  lemma LoadCalibrationExactly(engine: Engine, file: Option<Bytes>, id: SensorId, payload: Bytes)
    ensures LoadCalibration(engine, file, id) == Loaded(payload)
            <==> file == Some(id + payload) && |payload| == 0x224b0 && engine.valid(payload)
    ensures LoadCalibration(engine, file, id) == Missing <==> file.None?
  {
    if file.Some? && |file.value| >= ID_LEN {
      assert file.value == file.value[..ID_LEN] + file.value[ID_LEN..];
    }
    assert (id + payload)[..ID_LEN] == id && (id + payload)[ID_LEN..] == payload;
  }

  /** A saved calibration loads back for its own sensor while the engine accepts it, and for no other sensor. */
  lemma LoadOfCalibrationFile(engine: Engine, id: SensorId, payload: Bytes, reader: SensorId)
    requires |payload| == PAYLOAD_LEN
    ensures LoadCalibration(engine, Some(id + payload), reader)
            == if reader == id && engine.valid(payload) then Loaded(payload) else Refused
  {
    assert (id + payload)[..ID_LEN] == id && (id + payload)[ID_LEN..] == payload;
  }

  /** The calibration a sensor without one gets: from its file, or, without a file, made from a known base. */
  function Obtained(engine: Engine, file: Option<Bytes>, id: SensorId, base: Option<Frame>): Option<Bytes> {
    match LoadCalibration(engine, file, id)
    case Loaded(payload) => Some(payload)
    case Refused => None
    case Missing => if base.Some? then engine.generate(base.value) else None
  }

  /** The calibration file after a save. */
  function Saved(engine: Engine, file: Option<Bytes>, id: SensorId, calibration: Bytes, writable: bool): Option<Bytes> {
    if writable && engine.valid(calibration) then Some(id + calibration) else file
  }

  /** The calibration file after a missing calibration was looked for. */
  function ObtainedFile(engine: Engine, file: Option<Bytes>, id: SensorId, base: Option<Frame>, writable: bool)
    : Option<Bytes>
  {
    var made := Obtained(engine, file, id, base);
    if file.None? && made.Some? then Saved(engine, file, id, made.value, writable) else file
  }

  /** The preprocessor that these make, if there is a calibration and the engine accepts it. */
  function Built(engine: Engine, calibration: Option<Bytes>, base: Frame): Option<Preprocessor> {
    if calibration.Some? && engine.accepts(calibration.value, base) then Some(Preprocessor(calibration.value, base))
    else None
  }

  /** Whether the base and calibration files can be written now. */
  datatype Disk = Disk(baseWritable: bool, calibrationWritable: bool, now: Clock)

  datatype Op =
    | Open
    | ReadSensor(id: SensorId, disk: Disk)
    | AdoptBase(raw: Frame, disk: Disk)
    | Close
      // anyone may replace the files between operations
    | Replaced(baseFile: Option<Bytes>, calibrationFile: Option<Bytes>)

  // ---- the cache as a value -----------------------------------------------------------------

  datatype CacheState = CacheState(
    id: Option<SensorId>,
    base: Option<Frame>,
    calibration: Option<Bytes>,
    preprocessor: Option<Preprocessor>,
    refreshed: bool,
    baseFile: Option<Bytes>,
    calibrationFile: Option<Bytes>)

  /** What belongs to another sensor is dropped. */
  function Dropped(s: CacheState, id: SensorId): CacheState {
    if s.id.Some? && s.id != Some(id)
    then s.(base := None, calibration := None, preprocessor := None, refreshed := false) else s
  }

  /** What the current sensor lacks is loaded, generated or built. */
  function Completed(engine: Engine, s: CacheState, id: SensorId, writable: bool): CacheState {
    var base := if s.base.Some? then s.base else LoadBase(s.baseFile, id);
    var calibration := if s.calibration.Some? then s.calibration else Obtained(engine, s.calibrationFile, id, base);
    var file := if s.calibration.Some? then s.calibrationFile
                else ObtainedFile(engine, s.calibrationFile, id, base, writable);
    var built := if base.Some? then Built(engine, calibration, base.value) else None;
    s.(base := base, calibration := calibration, calibrationFile := file,
       preprocessor := if s.preprocessor.Some? then s.preprocessor else built)
  }

  function SensorRead(engine: Engine, s: CacheState, id: SensorId, disk: Disk): CacheState {
    Completed(engine, Dropped(s, id).(id := Some(id)), id, disk.calibrationWritable)
  }

  /** The calibration and its file after the base changed. */
  function Followed(engine: Engine, s: CacheState, id: SensorId, raw: Frame, writable: bool)
    : (Option<Bytes>, Option<Bytes>)
  {
    if s.calibration.Some? then
      var rebased := engine.rebase(s.calibration.value, raw);
      if rebased.Some? then (rebased, Saved(engine, s.calibrationFile, id, rebased.value, writable))
      else (s.calibration, s.calibrationFile)
    else
      (Obtained(engine, s.calibrationFile, id, Some(raw)),
       ObtainedFile(engine, s.calibrationFile, id, Some(raw), writable))
  }

  function BaseAdopted(engine: Engine, s: CacheState, raw: Frame, disk: Disk): CacheState
    requires s.id.Some?
  {
    var (calibration, file) := Followed(engine, s, s.id.value, raw, disk.calibrationWritable);
    s.(base := Some(raw), calibration := calibration, calibrationFile := file,
       preprocessor := Built(engine, calibration, raw),
       baseFile := if disk.baseWritable then Some(BaseFile(s.id.value, disk.now, raw)) else s.baseFile)
  }

  function Closed(s: CacheState): CacheState {
    s.(calibration := None, preprocessor := None)
  }

  /** A base is adopted only in a session, after the id was read. */
  function Apply(engine: Engine, s: CacheState, op: Op): CacheState {
    match op
    case Open => s.(refreshed := false)
    case ReadSensor(id, disk) => SensorRead(engine, s, id, disk)
    case AdoptBase(raw, disk) =>
      if s.id.Some? then BaseAdopted(engine, s, raw, disk).(refreshed := true) else s
    case Close => Closed(s)
    case Replaced(base, calibration) => s.(baseFile := base, calibrationFile := calibration)
  }

  function RunOps(engine: Engine, s: CacheState, ops: seq<Op>): CacheState
    decreases |ops|
  {
    if ops == [] then s else RunOps(engine, Apply(engine, s, ops[0]), ops[1..])
  }

  /**
    What a close drops the next read of the same sensor restores: base, calibration and preprocessor are those that an
    adoption left, if its calibration could be saved.
   */
  lemma CloseIsUndone(engine: Engine, s: CacheState, raw: Frame, disk: Disk, later: Disk)
    requires s.id.Some? && disk.calibrationWritable
    requires var made := BaseAdopted(engine, s, raw, disk).calibration;
             made.Some? && engine.valid(made.value) && |made.value| == PAYLOAD_LEN
    requires s.calibration.Some? ==> engine.rebase(s.calibration.value, raw).Some?
    requires s.calibration.None? ==> s.calibrationFile.None?
    ensures var adopted := BaseAdopted(engine, s, raw, disk);
            SensorRead(engine, Closed(adopted), s.id.value, later) == adopted
  {
    LoadOfCalibrationFile(engine, s.id.value, BaseAdopted(engine, s, raw, disk).calibration.value, s.id.value);
  }

  /** A new handle on the same sensor finds what was saved; on another sensor it finds nothing of it. */
  lemma HandleFinds(engine: Engine, s: CacheState, raw: Frame, disk: Disk, reader: SensorId, later: Disk)
    requires s.id.Some? && disk.baseWritable
    ensures var adopted := BaseAdopted(engine, s, raw, disk);
            var other := CacheState(None, None, None, None, false, adopted.baseFile, adopted.calibrationFile);
            SensorRead(engine, other, reader, later).base == if reader == s.id.value then Some(raw) else None
  {
    LoadOfBaseFile(s.id.value, disk.now, raw, reader);
  }

  class Cache {
    const engine: Engine
    var sensorId: Option<SensorId>
    var t0Baseline: Frame
    var t0BaselineValid: bool
    var calibration: Option<Bytes>
    var preprocessor: Option<Preprocessor>
    var refreshedThisOpen: bool
    var baseFile: Option<Bytes>
    var calibrationFile: Option<Bytes>
    /** The sensor the frame was captured from, or the one its file names; likewise for the calibration. */
    ghost var baseOwner: SensorId
    ghost var calibrationOwner: SensorId

    /** Everything present belongs to the current sensor, and the preprocessor to exactly what is present. */
    ghost predicate Coherent()
      reads this
    {
      && (t0BaselineValid ==> sensorId == Some(baseOwner))
      && (calibration.Some? ==> sensorId == Some(calibrationOwner))
      && (preprocessor.Some? ==>
            t0BaselineValid && calibration.Some? && preprocessor.value == Preprocessor(calibration.value, t0Baseline))
    }

    /** The ImageBase, if one is known. */
    function Base(): Option<Frame>
      reads this`t0Baseline, this`t0BaselineValid
    {
      if t0BaselineValid then Some(t0Baseline) else None
    }

    function State(): CacheState
      reads this
    {
      CacheState(sensorId, Base(), calibration, preprocessor, refreshedThisOpen, baseFile, calibrationFile)
    }

    constructor (engine: Engine, baseFile: Option<Bytes>, calibrationFile: Option<Bytes>)
      ensures Coherent() && sensorId.None? && !t0BaselineValid && calibration.None? && preprocessor.None?
      ensures this.engine == engine && this.baseFile == baseFile && this.calibrationFile == calibrationFile
    {
      this.engine := engine;
      this.baseFile, this.calibrationFile := baseFile, calibrationFile;
      sensorId, calibration, preprocessor := None, None, None;
      t0Baseline := seq(FRAME_PIXELS, _ => 0);
      t0BaselineValid, refreshedThisOpen := false, false;
    }

    method MarkColdBoundary()
      modifies this`refreshedThisOpen
      ensures State() == old(State()).(refreshed := false)
    {
      refreshedThisOpen := false;
    }

    method BaselineLoad()
      requires sensorId.Some?
      modifies this`t0Baseline, this`t0BaselineValid, this`baseOwner
      ensures var loaded := LoadBase(baseFile, sensorId.value);
              if loaded.Some? then t0BaselineValid && t0Baseline == loaded.value && baseOwner == sensorId.value
              else && t0BaselineValid == old(t0BaselineValid)
                   && t0Baseline == old(t0Baseline) && baseOwner == old(baseOwner)
    {
      var loaded := LoadBase(baseFile, sensorId.value);
      if loaded.Some? {
        t0Baseline, t0BaselineValid := loaded.value, true;
        baseOwner := baseFile.value[16..32];
      }
    }

    method BaselineSave(disk: Disk)
      modifies this`baseFile
      ensures baseFile == if sensorId.Some? && disk.baseWritable
                          then Some(BaseFile(sensorId.value, disk.now, t0Baseline)) else old(baseFile)
    {
      if sensorId.Some? && disk.baseWritable {
        baseFile := Some(BaseFile(sensorId.value, disk.now, t0Baseline));
      }
    }

    method CalibrationSave(disk: Disk)
      requires calibration.Some? && sensorId.Some?
      modifies this`calibrationFile
      ensures calibrationFile
              == Saved(engine, old(calibrationFile), sensorId.value, calibration.value, disk.calibrationWritable)
    {
      if disk.calibrationWritable && engine.valid(calibration.value) {
        calibrationFile := Some(sensorId.value + calibration.value);
      }
    }

    /** Loads the sensor's calibration; generates one only when no file exists and a base is known. */
    method CalibrationMaybeLoadOrGenerate(disk: Disk)
      modifies this`calibration, this`calibrationFile, this`calibrationOwner
      ensures old(calibration).Some? || sensorId.None? ==>
                calibration == old(calibration) && calibrationOwner == old(calibrationOwner)
                && calibrationFile == old(calibrationFile)
      ensures old(calibration).None? && sensorId.Some? ==>
                && calibration == Obtained(engine, old(calibrationFile), sensorId.value, Base())
                && calibrationFile == ObtainedFile(engine, old(calibrationFile), sensorId.value, Base(),
                                                   disk.calibrationWritable)
                && (calibration.Some? ==> calibrationOwner == sensorId.value)
                && match LoadCalibration(engine, old(calibrationFile), sensorId.value)
                   case Loaded(payload) => calibration == Some(payload)
                   case Refused => calibration.None? && calibrationFile == old(calibrationFile)
                   case Missing => calibration == if t0BaselineValid then engine.generate(t0Baseline) else None
    {
      if calibration.Some? || sensorId.None? {
        return;
      }
      match LoadCalibration(engine, calibrationFile, sensorId.value) {
        case Loaded(payload) =>
          calibration := Some(payload);
          calibrationOwner := calibrationFile.value[..ID_LEN];
        case Refused =>
        case Missing =>
          if t0BaselineValid {
            calibration := engine.generate(t0Baseline);
            if calibration.Some? {
              calibrationOwner := sensorId.value;
              CalibrationSave(disk);
            }
          }
      }
    }

    method PreprocessorMaybeInit()
      modifies this`preprocessor
      ensures old(preprocessor).Some? || calibration.None? || !t0BaselineValid ==> preprocessor == old(preprocessor)
      ensures old(preprocessor).None? && calibration.Some? && t0BaselineValid ==>
                preprocessor == if engine.accepts(calibration.value, t0Baseline)
                                then Some(Preprocessor(calibration.value, t0Baseline)) else None
    {
      if preprocessor.None? && calibration.Some? && t0BaselineValid
         && engine.accepts(calibration.value, t0Baseline) {
        preprocessor := Some(Preprocessor(calibration.value, t0Baseline));
      }
    }

    /** A frame and its derivatives never survive a change of sensor. */
    method DropForeign(id: SensorId)
      requires Coherent()
      modifies this`t0BaselineValid, this`refreshedThisOpen, this`preprocessor, this`calibration
      ensures Coherent() && State() == Dropped(old(State()), id)
      ensures sensorId.Some? && sensorId != Some(id) ==>
                !t0BaselineValid && !refreshedThisOpen && preprocessor.None? && calibration.None?
      ensures sensorId.None? || sensorId == Some(id) ==>
                && t0BaselineValid == old(t0BaselineValid) && refreshedThisOpen == old(refreshedThisOpen)
                && preprocessor == old(preprocessor) && calibration == old(calibration)
    {
      if sensorId.Some? && sensorId.value != id {
        t0BaselineValid := false;
        refreshedThisOpen := false;
        preprocessor := None;
        calibration := None;
      }
    }

    /** Reads in what the current sensor still lacks. */
    method LoadMissing(disk: Disk)
      requires Coherent() && sensorId.Some?
      modifies this`t0Baseline, this`t0BaselineValid, this`baseOwner
      modifies this`calibration, this`calibrationFile, this`calibrationOwner, this`preprocessor
      ensures Coherent()
      ensures State() == Completed(engine, old(State()), sensorId.value, disk.calibrationWritable)
      ensures old(t0BaselineValid) ==> t0BaselineValid && t0Baseline == old(t0Baseline)
      ensures !old(t0BaselineValid) ==>
                if LoadBase(baseFile, sensorId.value).Some?
                then t0BaselineValid && t0Baseline == LoadBase(baseFile, sensorId.value).value
                else !t0BaselineValid
      ensures old(calibration).Some? ==> calibration == old(calibration) && calibrationFile == old(calibrationFile)
      ensures old(calibration).None? ==>
                && calibration == Obtained(engine, old(calibrationFile), sensorId.value, Base())
                && calibrationFile == ObtainedFile(engine, old(calibrationFile), sensorId.value, Base(),
                                                   disk.calibrationWritable)
      ensures old(preprocessor).Some? ==> preprocessor == old(preprocessor)
      ensures old(preprocessor).None? ==>
                preprocessor == if t0BaselineValid then Built(engine, calibration, t0Baseline) else None
    {
      if !t0BaselineValid {
        BaselineLoad();
      }
      CalibrationMaybeLoadOrGenerate(disk);
      PreprocessorMaybeInit();
    }

    /** The sensor answered with its id: drop what belongs to another one, then load what is missing. */
    method ReadSensor(id: SensorId, disk: Disk)
      requires Coherent()
      modifies this
      ensures Coherent() && sensorId == Some(id) && State() == SensorRead(engine, old(State()), id, disk)
      ensures baseFile == old(baseFile)
      ensures var known := old(sensorId) == Some(id);
              && (known && old(t0BaselineValid) ==> t0BaselineValid && t0Baseline == old(t0Baseline))
              && (known && old(calibration).Some? ==> calibration == old(calibration))
              && (known && old(preprocessor).Some? ==> preprocessor == old(preprocessor))
              && (known ==> refreshedThisOpen == old(refreshedThisOpen))
              && (old(sensorId).Some? && !known ==> !refreshedThisOpen)
              && (!known || !old(t0BaselineValid) ==>
                    if LoadBase(baseFile, id).Some? then t0BaselineValid && t0Baseline == LoadBase(baseFile, id).value
                    else !t0BaselineValid)
      ensures (old(sensorId).Some? && old(sensorId) != Some(id)) || old(calibration).None? ==>
                && calibration == Obtained(engine, old(calibrationFile), id, Base())
                && calibrationFile == ObtainedFile(engine, old(calibrationFile), id, Base(), disk.calibrationWritable)
      ensures (old(sensorId).Some? && old(sensorId) != Some(id)) || old(preprocessor).None? ==>
                preprocessor == if t0BaselineValid then Built(engine, calibration, t0Baseline) else None
    {
      DropForeign(id);
      sensorId := Some(id);
      LoadMissing(disk);
    }

    /** The calibration follows a new ImageBase; if the engine refuses, the old one stays. */
    method Rebase(disk: Disk)
      requires sensorId.Some?
      modifies this`calibration, this`calibrationFile
      ensures calibration.Some? <==> old(calibration).Some?
      ensures old(calibration).Some? ==>
                calibration == if engine.rebase(old(calibration).value, t0Baseline).Some?
                               then engine.rebase(old(calibration).value, t0Baseline) else old(calibration)
      ensures calibrationFile
              == if old(calibration).Some? && engine.rebase(old(calibration).value, t0Baseline).Some?
                 then Saved(engine, old(calibrationFile), sensorId.value,
                            engine.rebase(old(calibration).value, t0Baseline).value, disk.calibrationWritable)
                 else old(calibrationFile)
    {
      if calibration.Some? {
        var rebased := engine.rebase(calibration.value, t0Baseline);
        if rebased.Some? {
          calibration := rebased;
          CalibrationSave(disk);
        }
      }
    }

    /** The preprocessor is built anew from what is present. */
    method Rebuild()
      requires t0BaselineValid
      modifies this`preprocessor
      ensures preprocessor == Built(engine, calibration, t0Baseline)
    {
      preprocessor := None;
      PreprocessorMaybeInit();
    }

    /** A frame captured with the finger off becomes the ImageBase; calibration and preprocessor follow it. */
    method AdoptBase(raw: Frame, disk: Disk)
      requires Coherent() && sensorId.Some?
      modifies this
      ensures Coherent() && sensorId == old(sensorId) && refreshedThisOpen == old(refreshedThisOpen)
      ensures State() == BaseAdopted(engine, old(State()), raw, disk)
      ensures t0BaselineValid && t0Baseline == raw
      ensures baseFile == if disk.baseWritable then Some(BaseFile(sensorId.value, disk.now, raw)) else old(baseFile)
      ensures old(calibration).Some? ==>
                calibration == if engine.rebase(old(calibration).value, raw).Some?
                               then engine.rebase(old(calibration).value, raw) else old(calibration)
      ensures old(calibration).None? ==>
                && calibration == Obtained(engine, old(calibrationFile), sensorId.value, Some(raw))
                && calibrationFile == ObtainedFile(engine, old(calibrationFile), sensorId.value, Some(raw),
                                                   disk.calibrationWritable)
      ensures preprocessor == Built(engine, calibration, raw)
    {
      t0Baseline, t0BaselineValid := raw, true;
      baseOwner := sensorId.value;
      BaselineSave(disk);
      Rebase(disk);
      CalibrationMaybeLoadOrGenerate(disk);
      Rebuild();
    }

    method Close()
      modifies this
      ensures preprocessor.None? && calibration.None?
      ensures sensorId == old(sensorId) && t0BaselineValid == old(t0BaselineValid) && t0Baseline == old(t0Baseline)
      ensures baseFile == old(baseFile) && calibrationFile == old(calibrationFile)
      ensures refreshedThisOpen == old(refreshedThisOpen)
      ensures State() == Closed(old(State()))
      ensures old(Coherent()) ==> Coherent()
    {
      preprocessor := None;
      calibration := None;
    }

    /** Every run over this object stays coherent; a base is adopted only in a session, after the id was read. */
    method Run(ops: seq<Op>)
      requires Coherent()
      modifies this
      ensures Coherent() && State() == RunOps(engine, old(State()), ops)
    {
      for i := 0 to |ops|
        invariant Coherent() && RunOps(engine, State(), ops[i..]) == RunOps(engine, old(State()), ops)
      {
        ghost var rest := ops[i..];
        assert rest[0] == ops[i] && rest[1..] == ops[i + 1..];
        match ops[i] {
          case Open => MarkColdBoundary();
          case ReadSensor(id, disk) => ReadSensor(id, disk);
          case AdoptBase(raw, disk) =>
            if sensorId.Some? {
              AdoptBase(raw, disk);
              refreshedThisOpen := true;
            }
          case Close => Close();
          case Replaced(base, calib) => baseFile, calibrationFile := base, calib;
        }
      }
    }

    /** What one handle saves, a later handle on the same sensor loads, and a handle on another one does not. */
    method SaveThenLoad(raw: Frame, disk: Disk, later: SensorId) returns (other: Cache)
      requires Coherent() && sensorId.Some? && disk.baseWritable
      modifies this
      ensures fresh(other) && other.Coherent()
      ensures later == old(sensorId).value ==> other.t0BaselineValid && other.t0Baseline == raw
      ensures later != old(sensorId).value ==> !other.t0BaselineValid
    {
      AdoptBase(raw, disk);
      other := new Cache(engine, baseFile, calibrationFile);
      LoadOfBaseFile(sensorId.value, disk.now, raw, later);
      other.ReadSensor(later, disk);
    }
  }
}

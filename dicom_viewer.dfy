/** `DicomViewer`: assembles a collection of DICOM slices (checking every
    selected file, then the regularity of the slice positions), commits it
    only when every check passes, derives the instance limits, and rebuilds
    the 8-bit and 16-bit volumes from the decoded layers. Files are reduced
    to the attributes the viewer reads from them; decoding is a parameter. */
module Viewer {
  import opened Numeric
  import opened Keys
  import opened Layout
  import opened Volumic
  import opened Raw

  /** One selected file, as the loader sees it. */
  datatype SliceFile = SliceFile(
    path: string,
    // `loadFile` succeeded
    loads: bool,
    // Patient's Name (0010,0010)
    patient: string,
    // Instance Number (0020,0013)
    instance: Int32,
    // `loadDicomImage` produced an image
    decodable: bool,
    // the smallest and largest values the frame uses
    used_min: real,
    used_max: real,
    // Pixel Spacing (0028,0030): element 0 is the row spacing (pixel
    // height), element 1 the column spacing (pixel width)
    row_spacing: real,
    col_spacing: real,
    // third coordinate of Image Position (Patient) (0020,0032)
    z: real)

  /** The reasons `openDicomCollection` cancels a load. */
  datatype LoadError =
    | FailedToOpen(path: string)
    | MultiplePatients(patient: string, other: string)
    | DuplicatedInstance(instance: int)
    | UnreadableImage(path: string)
    | MultiplePixelSizes(pixel_width: real, pixel_height: real, other_width: real, other_height: real)
    | IrregularSpacing(error: real)

  datatype Result<T> = Ok(value: T) | Err(error: LoadError)

  /** The temporaries `openDicomCollection` fills while checking files. */
  datatype Batch = Batch(files: map<int, SliceFile>, patient: string, collection_min: real,
                         collection_max: real, pixel_width: real, pixel_height: real)

  /** The "Missing instances" warning: expected and received counts. */
  datatype Missing = Missing(expected: int, received: int)

  /** What a call to `openDicomCollection` ends with. */
  datatype OpenOutcome = NothingSelected | Rejected(error: LoadError) | Opened(missing: Option<Missing>)

  /** The temporaries before the first file: no file, no patient, the
      collection range [DBL_MAX, lowest()], pixel sizes -1. */
  const EmptyBatch: Batch := Batch(map[], "", DoubleMax, -DoubleMax, -1.0, -1.0)

  /** The regularity tolerance, in mm. */
  const MaxTol: real := 0.01

  /** The checks on one file, in the source's order: load, patient,
      duplicate instance, decode; then the range update and insertion; then
      the pixel spacing, adopted from the first file and compared for later
      ones. */
  function Admit(b: Batch, f: SliceFile, first: bool): Result<Batch>
  {
    if !f.loads then Err(FailedToOpen(f.path))
    else if b.patient != "" && b.patient != f.patient then Err(MultiplePatients(b.patient, f.patient))
    else if f.instance in b.files then Err(DuplicatedInstance(f.instance))
    else if !f.decodable then Err(UnreadableImage(f.path))
    else if !first && (b.pixel_width != f.col_spacing || b.pixel_height != f.row_spacing) then
      Err(MultiplePixelSizes(b.pixel_width, b.pixel_height, f.col_spacing, f.row_spacing))
    else
      Ok(Batch(b.files[f.instance := f], if b.patient == "" then f.patient else b.patient,
               Min(f.used_min, b.collection_min), Max(f.used_max, b.collection_max),
               if first then f.col_spacing else b.pixel_width,
               if first then f.row_spacing else b.pixel_height))
  }

  /** The file loop of `openDicomCollection`: files in input order, the
      first failure wins. */
  function Scan(files: seq<SliceFile>): Result<Batch>
    decreases |files|
  {
    if files == [] then Ok(EmptyBatch)
    else
      match Scan(files[..|files| - 1])
      case Err(e) => Err(e)
      case Ok(b) => Admit(b, files[|files| - 1], |files| == 1)
  }

  /** Once a prefix of the files is rejected, the whole selection is, with
      the same error. */
  lemma {:induction false} ScanErrorSticks(files: seq<SliceFile>, n: int)
    requires 0 <= n <= |files| && Scan(files[..n]).Err?
    ensures Scan(files) == Scan(files[..n])
    decreases |files|
  {
    if n < |files| {
      var init := files[..|files| - 1];
      assert init[..n] == files[..n];
      ScanErrorSticks(init, n);
    } else {
      assert files[..n] == files;
    }
  }

  /** The first non-empty patient name of a selection, or "" if none. */
  function FirstPatient(files: seq<SliceFile>): string
  {
    if files == [] then ""
    else if files[0].patient != "" then files[0].patient
    else FirstPatient(files[1..])
  }

  lemma {:induction false} FirstPatientSnoc(files: seq<SliceFile>, f: SliceFile)
    ensures FirstPatient(files + [f]) == if FirstPatient(files) == "" then f.patient else FirstPatient(files)
  {
    if files != [] {
      assert (files + [f])[1..] == files[1..] + [f];
      FirstPatientSnoc(files[1..], f);
    }
  }

  /** What a selection must satisfy to pass the file loop: every file loads
      and decodes; every file after the first non-empty patient name has that
      name; instance numbers are distinct; every pixel spacing equals the
      first file's. */
  ghost predicate Acceptable(files: seq<SliceFile>)
  {
    && (forall i :: 0 <= i < |files| ==> files[i].loads && files[i].decodable)
    && (forall i :: 0 <= i < |files| ==>
          FirstPatient(files[..i]) == "" || files[i].patient == FirstPatient(files[..i]))
    && (forall i, j :: 0 <= i < j < |files| ==> files[i].instance != files[j].instance)
    && (forall i :: 0 <= i < |files| ==>
          files[i].row_spacing == files[0].row_spacing && files[i].col_spacing == files[0].col_spacing)
  }

  /** `Acceptable` of a selection, split into its last file and the rest. */
  lemma AcceptableSnoc(files: seq<SliceFile>)
    requires files != []
    ensures var p, f := files[..|files| - 1], files[|files| - 1];
      Acceptable(files) <==>
        && Acceptable(p) && f.loads && f.decodable
        && (FirstPatient(p) == "" || f.patient == FirstPatient(p))
        && (forall i :: 0 <= i < |p| ==> p[i].instance != f.instance)
        && f.row_spacing == files[0].row_spacing && f.col_spacing == files[0].col_spacing
  {
    var p := files[..|files| - 1];
    assert forall i :: 0 <= i < |p| ==> p[i] == files[i];
    assert forall i :: 0 <= i < |p| ==> p[..i] == files[..i];
  }

  /** The instance numbers of a selection. */
  function Instances(files: seq<SliceFile>): set<int>
  {
    set i | 0 <= i < |files| :: files[i].instance as int
  }

  /** A batch holds exactly the files of a selection, keyed by instance
      number, with the first non-empty patient name and the first file's
      pixel sizes (-1 for an empty selection). */
  ghost predicate Describes(b: Batch, files: seq<SliceFile>)
  {
    && b.files.Keys == Instances(files)
    && (forall i :: 0 <= i < |files| ==> files[i].instance as int in b.files && b.files[files[i].instance] == files[i])
    && b.patient == FirstPatient(files)
    && (files == [] ==> b.pixel_width == -1.0 && b.pixel_height == -1.0)
    && (files != [] ==> b.pixel_width == files[0].col_spacing && b.pixel_height == files[0].row_spacing)
  }

  /** The checks on the last file pass exactly when it satisfies the
      conditions `Acceptable` adds for it. */
  lemma AdmitAccepts(b: Batch, files: seq<SliceFile>)
    requires files != [] && Describes(b, files[..|files| - 1])
    ensures var p, f := files[..|files| - 1], files[|files| - 1];
      Admit(b, f, |files| == 1).Ok? <==>
        && f.loads && f.decodable
        && (FirstPatient(p) == "" || f.patient == FirstPatient(p))
        && (forall i :: 0 <= i < |p| ==> p[i].instance != f.instance)
        && f.row_spacing == files[0].row_spacing && f.col_spacing == files[0].col_spacing
  {
    var p, f := files[..|files| - 1], files[|files| - 1];
    if p != [] {
      assert p[0] == files[0];
    }
    if f.instance as int in b.files {
      var i :| 0 <= i < |p| && p[i].instance as int == f.instance as int;
    }
  }

  /** A batch that admits one more file describes the longer selection. */
  lemma AdmitDescribes(b: Batch, files: seq<SliceFile>)
    requires files != [] && Describes(b, files[..|files| - 1])
    requires Admit(b, files[|files| - 1], |files| == 1).Ok?
    ensures Describes(Admit(b, files[|files| - 1], |files| == 1).value, files)
  {
    var p, f := files[..|files| - 1], files[|files| - 1];
    var b' := Admit(b, f, |files| == 1).value;
    assert files == p + [f];
    FirstPatientSnoc(p, f);
    if p != [] {
      assert p[0] == files[0];
    }
    forall i | 0 <= i < |files|
      ensures files[i].instance as int in b'.files && b'.files[files[i].instance] == files[i]
    {
      if i < |p| {
        assert files[i] == p[i];
      }
    }
    forall x | x in b'.files.Keys ensures x in Instances(files) {
      if x != f.instance as int {
        var i :| 0 <= i < |p| && p[i].instance as int == x;
        assert files[i] == p[i];
      }
    }
  }

  /** The file loop accepts exactly the acceptable selections, and the
      accepted batch describes the selection. */
  lemma {:induction false} ScanAccepts(files: seq<SliceFile>)
    ensures Scan(files).Ok? <==> Acceptable(files)
    ensures Scan(files).Ok? ==> Describes(Scan(files).value, files)
    decreases |files|
  {
    if files == [] {
      assert Instances(files) == {};
    } else {
      var p := files[..|files| - 1];
      ScanAccepts(p);
      AcceptableSnoc(files);
      if Scan(p).Ok? {
        AdmitAccepts(Scan(p).value, files);
        if Scan(files).Ok? {
          AdmitDescribes(Scan(p).value, files);
        }
      }
    }
  }

  /** Accepted instance numbers are C++ `int`s. */
  lemma ScanKeysInRange(files: seq<SliceFile>)
    ensures Scan(files).Ok? ==> forall i :: i in Scan(files).value.files ==> IntMin <= i <= IntMax
  {
    ScanAccepts(files);
  }

  /** The running range of the file loop bounds every file's used values. */
  lemma {:induction false} ScanBounds(files: seq<SliceFile>)
    ensures Scan(files).Ok? ==>
      var b := Scan(files).value;
      && b.collection_min <= DoubleMax && -DoubleMax <= b.collection_max
      && (forall i :: 0 <= i < |files| ==>
            b.collection_min <= files[i].used_min && files[i].used_max <= b.collection_max)
    decreases |files|
  {
    if files != [] && Scan(files).Ok? {
      var p := files[..|files| - 1];
      ScanBounds(p);
      assert forall i :: 0 <= i < |p| ==> files[i] == p[i];
    }
  }

  /** When every used value is a finite double, the running range of an
      accepted selection is attained: by some file's minimum, and by some
      file's maximum. */
  lemma {:induction false} ScanAttains(files: seq<SliceFile>)
    requires files != []
    requires forall i :: 0 <= i < |files| ==> Finite(files[i].used_min) && Finite(files[i].used_max)
    ensures Scan(files).Ok? ==>
      && (exists i :: 0 <= i < |files| && Scan(files).value.collection_min == files[i].used_min)
      && (exists i :: 0 <= i < |files| && Scan(files).value.collection_max == files[i].used_max)
    decreases |files|
  {
    var p, f := files[..|files| - 1], files[|files| - 1];
    if Scan(files).Ok? {
      var b, b' := Scan(p).value, Scan(files).value;
      assert forall i :: 0 <= i < |p| ==> files[i] == p[i];
      if p != [] {
        ScanAttains(p);
      }
      if b'.collection_min != f.used_min {
        assert p != [] && b'.collection_min == b.collection_min;
        var i :| 0 <= i < |p| && b.collection_min == p[i].used_min;
        assert files[i] == p[i];
      }
      if b'.collection_max != f.used_max {
        assert p != [] && b'.collection_max == b.collection_max;
        var i :| 0 <= i < |p| && b.collection_max == p[i].used_max;
        assert files[i] == p[i];
      }
    }
  }

  /** The file loop as the source writes it: early returns, running
      temporaries, pixel sizes adopted from file 0. */
  method ScanFiles(files: seq<SliceFile>) returns (r: Result<Batch>)
    ensures r == Scan(files)
  {
    var new_files: map<int, SliceFile> := map[];
    var new_patient := "";
    var new_collection_min := DoubleMax;
    var new_collection_max := -DoubleMax;
    var new_pixel_width := -1.0;
    var new_pixel_height := -1.0;
    for file_idx := 0 to |files|
      invariant Scan(files[..file_idx]) ==
        Ok(Batch(new_files, new_patient, new_collection_min, new_collection_max, new_pixel_width, new_pixel_height))
    {
      var f := files[file_idx];
      assert files[..file_idx + 1][..file_idx] == files[..file_idx];
      if !f.loads {
        ScanErrorSticks(files, file_idx + 1);
        return Err(FailedToOpen(f.path));
      }
      if new_patient == "" {
        new_patient := f.patient;
      } else if new_patient != f.patient {
        ScanErrorSticks(files, file_idx + 1);
        return Err(MultiplePatients(new_patient, f.patient));
      }
      if f.instance in new_files {
        ScanErrorSticks(files, file_idx + 1);
        return Err(DuplicatedInstance(f.instance));
      }
      if !f.decodable {
        ScanErrorSticks(files, file_idx + 1);
        return Err(UnreadableImage(f.path));
      }
      new_collection_min := Min(f.used_min, new_collection_min);
      new_collection_max := Max(f.used_max, new_collection_max);
      new_files := new_files[f.instance := f];
      var frame_pixel_height := f.row_spacing;
      var frame_pixel_width := f.col_spacing;
      if file_idx == 0 {
        new_pixel_width := frame_pixel_width;
        new_pixel_height := frame_pixel_height;
      } else if new_pixel_width != frame_pixel_width || new_pixel_height != frame_pixel_height {
        ScanErrorSticks(files, file_idx + 1);
        return Err(MultiplePixelSizes(new_pixel_width, new_pixel_height, frame_pixel_width, frame_pixel_height));
      }
    }
    assert files[..|files|] == files;
    return Ok(Batch(new_files, new_patient, new_collection_min, new_collection_max, new_pixel_width, new_pixel_height));
  }

  /** The instance limits of a key set: its least and greatest keys, or
      (INT_MAX, INT_MIN) when it is empty. */
  ghost function Limits(keys: set<int>): (int, int)
  {
    if keys == {} then (IntMax, IntMin) else (Least(keys), Greatest(keys))
  }

  /** One step of the limits loop: the limits of the keys seen so far,
      lowered and raised with one more key, are those of the larger set. */
  lemma LimitsStep(done: set<int>, e: int, lo: int, hi: int)
    requires IntMin <= e <= IntMax
    requires done == {} ==> lo == IntMax && hi == IntMin
    requires done != {} ==> IsLeast(done, lo) && IsGreatest(done, hi)
    ensures IsLeast(done + {e}, if e < lo then e else lo)
    ensures IsGreatest(done + {e}, if e > hi then e else hi)
  {
  }

  /** The loop of `updateInstanceLimits`: starts from (INT_MAX, INT_MIN) and
      lowers/raises the limits with every key. */
  method InstanceLimits(keys: set<int>) returns (min_instance: int, max_instance: int)
    requires forall i :: i in keys ==> IntMin <= i <= IntMax
    ensures (min_instance, max_instance) == Limits(keys)
  {
    min_instance := IntMax;
    max_instance := IntMin;
    var remaining := keys;
    ghost var done: set<int> := {};
    while remaining != {}
      invariant done + remaining == keys && done !! remaining
      invariant done == {} ==> min_instance == IntMax && max_instance == IntMin
      invariant done != {} ==> IsLeast(done, min_instance) && IsGreatest(done, max_instance)
      decreases |remaining|
    {
      HasElement(remaining);
      var entry :| entry in remaining;
      LimitsStep(done, entry, min_instance, max_instance);
      if entry < min_instance {
        min_instance := entry;
      }
      if entry > max_instance {
        max_instance := entry;
      }
      remaining := remaining - {entry};
      done := done + {entry};
    }
    LimitsOf(keys, min_instance, max_instance);
  }

  /** The extremes of a set are its limits. */
  lemma LimitsOf(keys: set<int>, lo: int, hi: int)
    requires keys == {} ==> lo == IntMax && hi == IntMin
    requires keys != {} ==> IsLeast(keys, lo) && IsGreatest(keys, hi)
    ensures (lo, hi) == Limits(keys)
  {
  }

  /** The spacing and offset derived from the two extreme instances:
      spacing (z_last - z_first) / (last - first), offset z_first - first *
      spacing; both 0 with fewer than two files. */
  ghost function SliceGeometry(m: map<int, SliceFile>): (real, real)
  {
    if |m| <= 1 then (0.0, 0.0)
    else
      LeastBelowGreatest(m.Keys);
      var lo, hi := Least(m.Keys), Greatest(m.Keys);
      var spacing := (m[hi].z - m[lo].z) / (hi - lo) as real;
      (spacing, m[lo].z - lo as real * spacing)
  }

  /** The distance between the expected and the received position of a slice. */
  function SliceError(spacing: real, offset: real, instance: int, z: real): real
  {
    Abs(spacing * instance as real + offset - z)
  }

  /** The regularity check: with two files or more, accepted (with the
      derived spacing and offset) iff no slice errs by more than the
      tolerance; otherwise rejected with the error of the least such
      instance, the first one the ascending walk meets. */
  ghost function SpacingCheck(m: map<int, SliceFile>): Result<(real, real)>
  {
    if |m| <= 1 then Ok((0.0, 0.0))
    else
      var (spacing, offset) := SliceGeometry(m);
      var bad := set i | i in m && SliceError(spacing, offset, i, m[i].z) > MaxTol;
      if bad == {} then Ok((spacing, offset))
      else
        var first := Least(bad);
        Err(IrregularSpacing(SliceError(spacing, offset, first, m[first].z)))
  }

  /** The slice-spacing block of `openDicomCollection`: spacing and offset
      from the first and last keys, then every entry in ascending instance
      order against the tolerance. */
  method CheckSliceSpacing(m: map<int, SliceFile>) returns (r: Result<(real, real)>)
    requires forall i :: i in m ==> IntMin <= i <= IntMax
    ensures r == SpacingCheck(m)
  {
    if |m| <= 1 {
      return Ok((0.0, 0.0));
    }
    var new_min_instance, new_max_instance := InstanceLimits(m.Keys);
    LeastBelowGreatest(m.Keys);
    var new_slice_spacing := (m[new_max_instance].z - m[new_min_instance].z) /
                             (new_max_instance - new_min_instance) as real;
    var new_slice_offset := m[new_min_instance].z - new_min_instance as real * new_slice_spacing;
    assert SliceGeometry(m).0 == new_slice_spacing;
    assert SliceGeometry(m).1 == new_slice_offset;
    ghost var bad := set i | i in m && SliceError(new_slice_spacing, new_slice_offset, i, m[i].z) > MaxTol;
    var instance := new_min_instance;
    while instance <= new_max_instance
      invariant new_min_instance <= instance <= new_max_instance + 1
      invariant forall i :: i in bad ==> instance <= i
      decreases new_max_instance - instance
    {
      if instance in m {
        var error_z := SliceError(new_slice_spacing, new_slice_offset, instance, m[instance].z);
        if error_z > MaxTol {
          assert instance in bad;
          assert IsLeast(bad, instance);
          return Err(IrregularSpacing(error_z));
        }
      }
      instance := instance + 1;
    }
    assert forall i :: i !in bad;
    assert bad == {};
    return Ok((new_slice_spacing, new_slice_offset));
  }

  /** Over the reals the two extreme slices always lie exactly where the
      derived spacing and offset put them, so only inner slices can fail. */
  lemma ExtremesExact(m: map<int, SliceFile>)
    requires |m| >= 2
    ensures var (spacing, offset) := SliceGeometry(m);
      && SliceError(spacing, offset, Least(m.Keys), m[Least(m.Keys)].z) == 0.0
      && SliceError(spacing, offset, Greatest(m.Keys), m[Greatest(m.Keys)].z) == 0.0
  {
    LeastBelowGreatest(m.Keys);
    var lo, hi := Least(m.Keys), Greatest(m.Keys);
    var spacing := (m[hi].z - m[lo].z) / (hi - lo) as real;
    assert spacing * (hi - lo) as real == m[hi].z - m[lo].z;
    assert spacing * hi as real - lo as real * spacing == spacing * (hi - lo) as real;
  }

  /** Slices placed exactly on a line z = offset + spacing * instance are
      accepted, with that spacing and offset. */
  lemma LinearAccepted(m: map<int, SliceFile>, spacing: real, offset: real)
    requires |m| >= 2
    requires forall i :: i in m ==> m[i].z == offset + spacing * i as real
    ensures SpacingCheck(m) == Ok((spacing, offset))
  {
    LeastBelowGreatest(m.Keys);
    var lo, hi := Least(m.Keys), Greatest(m.Keys);
    var s := (m[hi].z - m[lo].z) / (hi - lo) as real;
    assert m[hi].z - m[lo].z == spacing * (hi - lo) as real;
    assert s == spacing;
    assert SliceGeometry(m).0 == spacing && SliceGeometry(m).1 == offset;
    var bad := set i | i in m && SliceError(spacing, offset, i, m[i].z) > MaxTol;
    assert forall i :: i !in bad;
    assert bad == {};
  }

  /** A slice at the given instance and z, otherwise valid. */
  function SliceAt(instance: Int32, z: real): SliceFile
  {
    SliceFile("", true, "P", instance, true, 0.0, 0.0, 1.0, 1.0, z)
  }

  lemma ExtremesOf123()
    ensures Least({1, 2, 3}) == 1 && Greatest({1, 2, 3}) == 3
  {
    assert IsLeast({1, 2, 3}, 1) && IsGreatest({1, 2, 3}, 3);
  }

  /** Instances 1, 2, 3 at z 0, 2, 5: spacing 2.5 and offset -2.5 from the
      extremes; instance 2 expected at 2.5 errs by 0.5, and is rejected. */
  lemma IrregularExample()
    ensures var m := map[1 := SliceAt(1, 0.0), 2 := SliceAt(2, 2.0), 3 := SliceAt(3, 5.0)];
      SliceGeometry(m) == (2.5, -2.5) && SpacingCheck(m) == Err(IrregularSpacing(0.5))
  {
    var m := map[1 := SliceAt(1, 0.0), 2 := SliceAt(2, 2.0), 3 := SliceAt(3, 5.0)];
    assert m.Keys == {1, 2, 3};
    ExtremesOf123();
    assert m[1].z == 0.0 && m[2].z == 2.0 && m[3].z == 5.0;
    assert SliceGeometry(m).0 == 2.5 && SliceGeometry(m).1 == -2.5;
    var bad := set i | i in m && SliceError(2.5, -2.5, i, m[i].z) > MaxTol;
    assert SliceError(2.5, -2.5, 1, 0.0) == 0.0;
    assert SliceError(2.5, -2.5, 2, 2.0) == 0.5;
    assert SliceError(2.5, -2.5, 3, 5.0) == 0.0;
    assert bad == {2};
    assert IsLeast(bad, 2);
  }

  /** The tolerance is inclusive: instances 1, 2, 3 at z 0, 0.01, 0 give
      spacing 0 and offset 0, instance 2 errs by exactly 0.01, and the
      selection is accepted. */
  lemma ToleranceExample()
    ensures var m := map[1 := SliceAt(1, 0.0), 2 := SliceAt(2, 0.01), 3 := SliceAt(3, 0.0)];
      SpacingCheck(m) == Ok((0.0, 0.0))
  {
    var m := map[1 := SliceAt(1, 0.0), 2 := SliceAt(2, 0.01), 3 := SliceAt(3, 0.0)];
    assert m.Keys == {1, 2, 3};
    ExtremesOf123();
    assert m[1].z == 0.0 && m[2].z == 0.01 && m[3].z == 0.0;
    assert SliceGeometry(m).0 == 0.0 && SliceGeometry(m).1 == 0.0;
    var bad := set i | i in m && SliceError(0.0, 0.0, i, m[i].z) > MaxTol;
    assert SliceError(0.0, 0.0, 1, 0.0) == 0.0;
    assert SliceError(0.0, 0.0, 2, 0.01) == 0.01;
    assert SliceError(0.0, 0.0, 3, 0.0) == 0.0;
    assert forall i :: i !in bad;
    assert bad == {};
  }

  /** The "Missing instances" warning (a count differing from
      max - min + 1) fires exactly when some instance number strictly
      between the least and the greatest is absent. */
  lemma MissingIffGap(keys: set<int>)
    requires keys != {}
    ensures |keys| != Greatest(keys) - Least(keys) + 1 <==>
      exists i :: Least(keys) < i < Greatest(keys) && i !in keys
  {
    var lo, hi := Least(keys), Greatest(keys);
    CompleteIffSize(keys);
    if keys != Range(lo, hi) {
      assert keys <= Range(lo, hi);
      HasElement(Range(lo, hi) - keys);
      var i :| i in Range(lo, hi) - keys;
      assert lo < i < hi;
    }
  }

  /** The whole validation of `openDicomCollection`: the accepted batch and
      its slice spacing, or the first error. */
  ghost function Load(files: seq<SliceFile>): Result<(Batch, real)>
  {
    match Scan(files)
    case Err(e) => Err(e)
    case Ok(b) =>
      match SpacingCheck(b.files)
      case Err(e) => Err(e)
      case Ok(geometry) => Ok((b, geometry.0))
  }

  /** Every decoded layer has one sample per pixel of the image. */
  ghost predicate LayersFit<T>(w: int, h: int, written: map<int, seq<T>>)
  {
    forall l :: l in written ==> |written[l]| == w * h
  }

  /** The volume built from per-instance layers: layer `l` of the buffer is
      the layer decoded for instance `base + l` if there is one, `zero`
      everywhere otherwise. */
  function Assembled<T>(w: int, h: int, d: int, base: int, written: map<int, seq<T>>, zero: T): (v: seq<T>)
    requires 0 <= w && 0 <= h && 0 <= d && LayersFit(w, h, written)
    ensures |v| == w * h * d
  {
    if w * h == 0 then []
    else
      seq(w * h * d, i requires 0 <= i < w * h * d =>
        if base + i / (w * h) in written then written[base + i / (w * h)][i % (w * h)] else zero)
  }

  /** Writing one more layer with `setLayer` adds that layer to the
      assembled volume. */
  lemma AssembleStep<T>(w: int, h: int, d: int, base: int, written: map<int, seq<T>>, zero: T,
                        key: int, buf: seq<T>, before: seq<T>, after: seq<T>)
    requires 0 <= w && 0 <= h && 0 <= d && LayersFit(w, h, written)
    requires base <= key < base + d && |buf| == w * h
    requires before == Assembled(w, h, d, base, written, zero)
    requires BlockWritten(before, after, buf, w * h * (key - base))
    ensures LayersFit(w, h, written[key := buf])
    ensures after == Assembled(w, h, d, base, written[key := buf], zero)
  {
    var n := w * h;
    var written' := written[key := buf];
    var target := Assembled(w, h, d, base, written', zero);
    if n != 0 {
      forall j | 0 <= j < |after| ensures after[j] == target[j] {
        var l, r := j / n, j % n;
        assert j == n * l + r;
        InBlockIff(n, l, key - base, r);
      }
    }
  }

  /** The layers the 8-bit rebuild writes: every instance whose decoding
      succeeded (a failure skips that layer only). */
  function DecodedSkipping<T>(keys: set<int>, layers: map<int, Option<seq<T>>>): map<int, seq<T>>
  {
    map i | i in keys && i in layers && layers[i].Some? :: layers[i].value
  }

  /** The layers the 16-bit rebuild writes: the instances, in ascending
      order, before the first decoding failure (a failure abandons the rest). */
  function DecodedUntilFailure<T>(keys: set<int>, layers: map<int, Option<seq<T>>>): map<int, seq<T>>
  {
    map i | i in keys && i in layers && layers[i].Some? &&
            (forall j :: j in keys && j < i ==> j in layers && layers[j].Some?) :: layers[i].value
  }

  /** The layers decoded successfully among the instances below `bound`. */
  function DecodedBelow<T>(keys: set<int>, layers: map<int, Option<seq<T>>>, bound: int): map<int, seq<T>>
  {
    map i | i in keys && i < bound && i in layers && layers[i].Some? :: layers[i].value
  }

  /** The 16-bit layers never include an instance after a failed one, and
      the 8-bit layers always include at least those. */
  lemma DecodedOrder<T>(keys: set<int>, layers: map<int, Option<seq<T>>>, i: int, j: int)
    requires i in keys && j in keys && i < j && i in layers && layers[i].None?
    ensures j !in DecodedUntilFailure(keys, layers)
    ensures DecodedUntilFailure(keys, layers).Keys <= DecodedSkipping(keys, layers).Keys
  {
  }

  /** Walking one more instance adds its layer when it decoded. */
  lemma DecodedBelowStep<T>(keys: set<int>, layers: map<int, Option<seq<T>>>, bound: int)
    ensures DecodedBelow(keys, layers, bound + 1) ==
      if bound in keys && bound in layers && layers[bound].Some?
      then DecodedBelow(keys, layers, bound)[bound := layers[bound].value]
      else DecodedBelow(keys, layers, bound)
  {
  }

  /** Past the greatest key, the walk has written every decoded layer. */
  lemma SkippingComplete<T>(keys: set<int>, layers: map<int, Option<seq<T>>>, bound: int)
    requires forall j :: j in keys ==> j < bound
    ensures DecodedBelow(keys, layers, bound) == DecodedSkipping(keys, layers)
  {
  }

  /** The walk stops at a failed instance, or past the greatest key with no
      failure: either way it has written the layers before the first failure. */
  lemma UntilFailureComplete<T>(keys: set<int>, layers: map<int, Option<seq<T>>>, bound: int)
    requires forall j :: j in keys && j < bound ==> j in layers && layers[j].Some?
    requires (bound in keys && bound in layers && layers[bound].None?) || (forall j :: j in keys ==> j < bound)
    ensures DecodedBelow(keys, layers, bound) == DecodedUntilFailure(keys, layers)
  {
  }

  class DicomViewer {
    var active_files: map<int, SliceFile>
    var patient_name: string
    var collection_min: real
    var collection_max: real
    var pixel_width: real
    var pixel_height: real
    var slice_spacing: real
    var min_instance: int
    var max_instance: int

    /** Instance numbers are C++ `int`s and the limits are those of the
        active files. */
    ghost predicate Valid()
      reads this
    {
      (forall i :: i in active_files ==> IntMin <= i <= IntMax) &&
      (min_instance, max_instance) == Limits(active_files.Keys)
    }

    /** The constructor: no files, pixel sizes -1, spacing 0, the collection
        range [DBL_MAX, lowest()], then `updateInstanceLimits`. */
    constructor ()
      ensures Valid() && active_files == map[] && patient_name == ""
      ensures pixel_width == -1.0 && pixel_height == -1.0 && slice_spacing == 0.0
      ensures collection_min == DoubleMax && collection_max == -DoubleMax
      ensures min_instance == IntMax && max_instance == IntMin
    {
      active_files := map[];
      patient_name := "";
      pixel_width, pixel_height, slice_spacing := -1.0, -1.0, 0.0;
      collection_min, collection_max := DoubleMax, -DoubleMax;
      new;
      UpdateInstanceLimits();
    }

    /** `updateInstanceLimits`. */
    method UpdateInstanceLimits()
      requires forall i :: i in active_files ==> IntMin <= i <= IntMax
      modifies this`min_instance, this`max_instance
      ensures Valid()
    {
      min_instance, max_instance := InstanceLimits(active_files.Keys);
    }

    /** `openDicomCollection` on the selected files: nothing happens for an
        empty selection; a rejected selection changes nothing; an accepted
        one replaces the files, patient, range, pixel sizes and spacing,
        updates the instance limits, and warns (without undoing anything)
        when the instances do not fill [min_instance, max_instance]. */
    method OpenDicomCollection(files: seq<SliceFile>) returns (outcome: OpenOutcome)
      requires Valid()
      modifies this
      ensures Valid()
      ensures files == [] <==> outcome == NothingSelected
      ensures outcome.Rejected? <==> files != [] && Load(files).Err?
      ensures outcome.Rejected? ==> outcome.error == Load(files).error
      ensures !outcome.Opened? ==> unchanged(this)
      ensures outcome.Opened? ==>
        var (b, spacing) := Load(files).value;
        && active_files == b.files && patient_name == b.patient
        && collection_min == b.collection_min && collection_max == b.collection_max
        && pixel_width == b.pixel_width && pixel_height == b.pixel_height && slice_spacing == spacing
      ensures outcome.Opened? ==>
        outcome.missing ==
          if |active_files| != max_instance - min_instance + 1
          then Some(Missing(max_instance - min_instance + 1, |active_files|)) else None
    {
      if |files| == 0 {
        return NothingSelected;
      }
      var scanned := ScanFiles(files);
      if scanned.Err? {
        return Rejected(scanned.error);
      }
      var b := scanned.value;
      ScanKeysInRange(files);
      var checked := CheckSliceSpacing(b.files);
      if checked.Err? {
        return Rejected(checked.error);
      }
      assert Load(files) == Ok((b, checked.value.0));
      Commit(b, checked.value.0);
      var expected_instances := max_instance - min_instance + 1;
      if |active_files| != expected_instances {
        outcome := Opened(Some(Missing(expected_instances, |active_files|)));
      } else {
        outcome := Opened(None);
      }
    }

    /** The commit of an accepted selection: files, patient, collection
        range, pixel sizes and spacing replace the viewer's, then
        `updateInstanceLimits`. */
    method Commit(b: Batch, spacing: real)
      requires forall i :: i in b.files ==> IntMin <= i <= IntMax
      modifies this
      ensures Valid()
      ensures active_files == b.files && patient_name == b.patient
      ensures collection_min == b.collection_min && collection_max == b.collection_max
      ensures pixel_width == b.pixel_width && pixel_height == b.pixel_height && slice_spacing == spacing
    {
      active_files := b.files;
      patient_name := b.patient;
      collection_min := b.collection_min;
      collection_max := b.collection_max;
      pixel_height := b.pixel_height;
      pixel_width := b.pixel_width;
      slice_spacing := spacing;
      UpdateInstanceLimits();
    }

    /** `updateVolumicData` with the 8-bit decoding of every active file
        given as `layers` (None where `getOutputData` fails): a zeroed
        W*H*(max - min + 1) volume, each decoded layer copied to layer
        `instance - min_instance` (which never throws), a failed one skipped;
        then the viewer's pixel sizes and spacing. */
    method UpdateVolumicData(width: int, height: int, layers: map<int, Option<seq<Byte>>>) returns (vd: VolumicData)
      requires Valid() && active_files != map[] && 0 <= width && 0 <= height
      requires forall i :: i in active_files ==> i in layers && (layers[i].Some? ==> |layers[i].value| == width * height)
      ensures fresh(vd) && fresh(vd.data) && vd.Shaped()
      ensures vd.width == width && vd.height == height && vd.depth == max_instance - min_instance + 1
      ensures vd.pixel_width == pixel_width && vd.pixel_height == pixel_height && vd.slice_spacing == slice_spacing
      ensures LayersFit(width, height, DecodedSkipping(active_files.Keys, layers))
      ensures vd.data[..] == Assembled(width, height, vd.depth, min_instance, DecodedSkipping(active_files.Keys, layers), 0)
    {
      ghost var keys := active_files.Keys;
      var depth := max_instance - min_instance + 1;
      var new_data := new VolumicData(width, height, depth);
      assert new_data.data[..] == Assembled(width, height, depth, min_instance, DecodedBelow(keys, layers, min_instance), 0);
      var instance := min_instance;
      while instance <= max_instance
        invariant min_instance <= instance <= max_instance + 1
        invariant fresh(new_data) && fresh(new_data.data) && new_data.Shaped()
        invariant new_data.width == width && new_data.height == height && new_data.depth == depth
        invariant LayersFit(width, height, DecodedBelow(keys, layers, instance))
        invariant new_data.data[..] == Assembled(width, height, depth, min_instance, DecodedBelow(keys, layers, instance), 0)
        decreases max_instance - instance
      {
        DecodedBelowStep(keys, layers, instance);
        if instance in active_files {
          var buffer := layers[instance];
          if buffer.Some? {
            ghost var before := new_data.data[..];
            var r := new_data.SetLayer(buffer.value, instance - min_instance);
            assert r == Written;
            AssembleStep(width, height, depth, min_instance, DecodedBelow(keys, layers, instance), 0,
                         instance, buffer.value, before, new_data.data[..]);
          }
        }
        instance := instance + 1;
      }
      SkippingComplete(keys, layers, instance);
      new_data.pixel_width := pixel_width;
      new_data.pixel_height := pixel_height;
      new_data.slice_spacing := slice_spacing;
      vd := new_data;
    }

    /** The layer walk of `updateRawData`: active files in ascending instance
        order, each decoded layer copied to layer `instance - min_instance`
        (which never throws); the first failed decoding ends the walk. */
    method CopyRawLayers(new_data: RawData, layers: map<int, Option<seq<U16>>>)
      requires Valid() && active_files != map[] && new_data.Shaped()
      requires new_data.depth == max_instance - min_instance + 1
      requires forall i :: i in active_files ==>
        (i in layers && (layers[i].Some? ==> |layers[i].value| == new_data.width * new_data.height))
      requires forall i :: 0 <= i < new_data.data.Length ==> new_data.data[i] == 0
      modifies new_data.data
      ensures new_data.Shaped()
      ensures LayersFit(new_data.width, new_data.height, DecodedUntilFailure(active_files.Keys, layers))
      ensures new_data.data[..] == Assembled(new_data.width, new_data.height, new_data.depth, min_instance,
                                             DecodedUntilFailure(active_files.Keys, layers), 0)
    {
      ghost var keys := active_files.Keys;
      var width, height, depth := new_data.width, new_data.height, new_data.depth;
      assert new_data.data[..] == Assembled(width, height, depth, min_instance, DecodedBelow(keys, layers, min_instance), 0);
      var instance := min_instance;
      while instance <= max_instance
        invariant min_instance <= instance <= max_instance + 1
        invariant new_data.Shaped()
        invariant forall j :: j in keys && j < instance ==> j in layers && layers[j].Some?
        invariant LayersFit(width, height, DecodedBelow(keys, layers, instance))
        invariant new_data.data[..] == Assembled(width, height, depth, min_instance, DecodedBelow(keys, layers, instance), 0)
        decreases max_instance - instance
      {
        DecodedBelowStep(keys, layers, instance);
        if instance in active_files {
          var buffer := layers[instance];
          if buffer.None? {
            UntilFailureComplete(keys, layers, instance);
            break;
          }
          ghost var before := new_data.data[..];
          var r := new_data.SetLayer(buffer.value, instance - min_instance);
          assert r == Written;
          AssembleStep(width, height, depth, min_instance, DecodedBelow(keys, layers, instance), 0,
                       instance, buffer.value, before, new_data.data[..]);
        }
        instance := instance + 1;
        if max_instance < instance {
          UntilFailureComplete(keys, layers, instance);
        }
      }
    }

    /** `updateRawData` with the 16-bit decoding of every active file given
        as `layers`: the same volume, walked in ascending instance order, but
        the first failed decoding abandons every later layer; then the window
        of the slider values against the current frame's allowed range, the
        pixel sizes, and the spacing truncated to an `int`. */
    method UpdateRawData(width: int, height: int, layers: map<int, Option<seq<U16>>>,
                         window_center: real, window_width: real, collec_min: real, collec_max: real)
      returns (rd: RawData)
      requires Valid() && active_files != map[] && 0 <= width && 0 <= height
      requires forall i :: i in active_files ==> i in layers && (layers[i].Some? ==> |layers[i].value| == width * height)
      ensures fresh(rd) && fresh(rd.data) && rd.Shaped()
      ensures rd.width == width && rd.height == height && rd.depth == max_instance - min_instance + 1
      ensures rd.pixel_width == pixel_width && rd.pixel_height == pixel_height
      ensures rd.slice_spacing == Trunc(slice_spacing)
      ensures (rd.w_min, rd.w_max) == RawWindow(window_center, window_width, collec_min, collec_max)
      ensures LayersFit(width, height, DecodedUntilFailure(active_files.Keys, layers))
      ensures rd.data[..] == Assembled(width, height, rd.depth, min_instance, DecodedUntilFailure(active_files.Keys, layers), 0)
    {
      var depth := max_instance - min_instance + 1;
      var new_data := new RawData(width, height, depth);
      CopyRawLayers(new_data, layers);
      new_data.SetWindow(window_center, window_width, collec_min, collec_max);
      new_data.pixel_width := pixel_width;
      new_data.pixel_height := pixel_height;
      new_data.slice_spacing := Trunc(slice_spacing);
      rd := new_data;
    }
  }

  /** `getWindowMin`/`getWindowMax`, and `getWindow` on the image's current
      window: center - width/2 and center + width/2. */
  function WindowBounds(center: real, width: real): (r: (real, real))
    ensures r.1 - r.0 == width && (r.0 + r.1) / 2.0 == center
    ensures 0.0 <= width ==> r.0 <= r.1
  {
    (center - width / 2.0, center + width / 2.0)
  }
}

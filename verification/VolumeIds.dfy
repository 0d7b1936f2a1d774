/** Four-part volume ids and the source URI a backup records for them. */
module VolumeIds {
  import opened Text
  import opened Uris
  import opened Wrappers

  const MODE_INSTANCE := "modeInstance"
  const MODE_MULTISHARE := "modeMultishare"

  datatype BackupInfo = BackupInfo(
    sourceVolumeId: string, project: string, location: string, sourceShare: string, sourceInstanceName: string)

  function GatherBackupInfo(id: string, project: string): Result<BackupInfo> {
    var tokens := Split(id, '/');
    if |tokens| != 4 then Err
    else Ok(BackupInfo(id, project, tokens[1], tokens[3], tokens[2]))
  }

  /** Indexes the second part of the id, as the code does. */
  function SourceVolumeLocation(bi: BackupInfo): string
    requires |Split(bi.sourceVolumeId, '/')| > 1
  {
    Split(bi.sourceVolumeId, '/')[1]
  }

  /** The source URI stored in a new backup. */
  function BackupSource(bi: BackupInfo): string
    requires |Split(bi.sourceVolumeId, '/')| > 1
  {
    var host := Instance(bi.project, SourceVolumeLocation(bi), bi.sourceInstanceName);
    if Contains(bi.sourceVolumeId, MODE_MULTISHARE) then ShareUri(Share(host, bi.sourceShare)) else InstanceUri(host)
  }

  /** The volume id recovered from a stored backup's source. */
  function VolumeHandle(mode: string, sourceInstance: string, sourceShare: string): Result<string> {
    var tokens := Split(sourceInstance, '/');
    if |tokens| != (if mode == MODE_INSTANCE then 6 else 8) then Err
    else Ok(mode + "/" + tokens[3] + "/" + tokens[5] + "/" + sourceShare)
  }

  /** The comparison that decides whether an existing backup has the requested source. */
  predicate SameSource(sourceInstance: string, sourceShare: string, id: string, mode: string) {
    VolumeHandle(mode, sourceInstance, sourceShare) == Ok(id)
  }

  lemma IdFromTokens(id: string)
    requires |Split(id, '/')| == 4
    ensures var t := Split(id, '/'); id == t[0] + "/" + t[1] + "/" + t[2] + "/" + t[3]
    ensures forall k | 0 <= k < 4 :: '/' !in Split(id, '/')[k]
  {
    JoinSplit(id, '/');
    SplitPiecesFree(id, '/');
    var t := Split(id, '/');
    assert t[2..] == [t[2], t[3]] && t[2..][1..] == [t[3]];
    assert t[1..][1..] == t[2..];
    assert Join(t[2..], '/') == t[2] + "/" + t[3];
    assert Join(t[1..], '/') == t[1] + "/" + (t[2] + "/" + t[3]);
  }

  /**
   * Storing a backup of `id` and reading its source back gives `id` exactly when the id contains the
   * multishare mode just in case that is its mode; otherwise reading it back is an error. The backup's
   * own region plays no part.
   */
  lemma BackupSourceRoundTrip(id: string, project: string, region: string)
    requires |Split(id, '/')| == 4 && '/' !in project
    ensures
      var mode := Split(id, '/')[0];
      var bi := GatherBackupInfo(id, project).value.(location := region);
      var agrees := Contains(id, MODE_MULTISHARE) <==> mode != MODE_INSTANCE;
      VolumeHandle(mode, BackupSource(bi), bi.sourceShare) == if agrees then Ok(id) else Err
  {
    IdFromTokens(id);
    var t := Split(id, '/');
    var host := Instance(project, t[1], t[2]);
    SplitInstanceUri(host);
    SplitShareUri(Share(host, t[3]));
  }

  lemma ContainsOwnMode(id: string)
    requires |Split(id, '/')| == 4
    ensures Contains(id, Split(id, '/')[0])
  {
    IdFromTokens(id);
    var t := Split(id, '/');
    var tail := "/" + t[1] + "/" + t[2] + "/" + t[3];
    assert id == "" + t[0] + tail;
    ContainsMiddle("", t[0], tail);
  }

  /** For the two modes the driver issues, only an instance id that spells the other mode is lost. */
  lemma RoundTripForDriverModes(id: string, project: string)
    requires |Split(id, '/')| == 4 && '/' !in project
    requires Split(id, '/')[0] in {MODE_INSTANCE, MODE_MULTISHARE}
    ensures
      var mode := Split(id, '/')[0];
      var bi := GatherBackupInfo(id, project).value;
      SameSource(BackupSource(bi), bi.sourceShare, id, mode)
      <==> (mode == MODE_MULTISHARE || !Contains(id, MODE_MULTISHARE))
  {
    var t := Split(id, '/');
    BackupSourceRoundTrip(id, project, t[1]);
    var bi := GatherBackupInfo(id, project).value;
    assert bi.(location := t[1]) == bi;
    ContainsOwnMode(id);
  }

  /** The mode a snapshot request is served in: the id only has to contain the multishare mode. */
  function ServedAs(id: string): string {
    if Contains(id, MODE_MULTISHARE) then MODE_MULTISHARE else MODE_INSTANCE
  }

  /** Does an existing backup of `stored` pass as one of `asked`? */
  predicate Accepted(stored: string, asked: string, project: string)
    requires |Split(stored, '/')| == 4
  {
    var bi := GatherBackupInfo(stored, project).value;
    SameSource(BackupSource(bi), bi.sourceShare, asked, ServedAs(asked))
  }

  /**
   * A backup is accepted for exactly the id that has the parts of the stored one after the mode the stored
   * one was served in, if it is itself served in that mode.
   */
  lemma AcceptedExactly(stored: string, asked: string, project: string)
    requires |Split(stored, '/')| == 4 && '/' !in project
    ensures
      var t := Split(stored, '/');
      Accepted(stored, asked, project)
      <==> ServedAs(asked) == ServedAs(stored) && asked == ServedAs(stored) + "/" + t[1] + "/" + t[2] + "/" + t[3]
  {
    IdFromTokens(stored);
    var t := Split(stored, '/');
    var host := Instance(project, t[1], t[2]);
    SplitInstanceUri(host);
    SplitShareUri(Share(host, t[3]));
  }

  /**
   * For the two modes the driver issues, no other volume passes as the source of a backup, unless the id of
   * a volume in instance mode spells the multishare mode.
   */
  lemma NoOtherSource(stored: string, project: string)
    requires |Split(stored, '/')| == 4 && '/' !in project
    requires Split(stored, '/')[0] in {MODE_INSTANCE, MODE_MULTISHARE}
    ensures (forall asked | Accepted(stored, asked, project) :: asked == stored)
       <==> (Split(stored, '/')[0] == MODE_MULTISHARE || !Contains(stored, MODE_MULTISHARE))
  {
    ContainsOwnMode(stored);
    if ServedAs(stored) == Split(stored, '/')[0] {
      forall asked | Accepted(stored, asked, project) ensures asked == stored {
        IdFromTokens(stored);
        AcceptedExactly(stored, asked, project);
      }
    } else {
      var asked := OtherAccepted(stored, project);
    }
  }

  lemma OtherAccepted(stored: string, project: string) returns (asked: string)
    requires |Split(stored, '/')| == 4 && '/' !in project
    requires Split(stored, '/')[0] == MODE_INSTANCE && ServedAs(stored) == MODE_MULTISHARE
    ensures Accepted(stored, asked, project) && asked != stored
  {
    IdFromTokens(stored);
    var t := Split(stored, '/');
    asked := MODE_MULTISHARE + "/" + t[1] + "/" + t[2] + "/" + t[3];
    var tail := "/" + t[1] + "/" + t[2] + "/" + t[3];
    ContainsMiddle("", MODE_MULTISHARE, tail);
    assert asked == "" + MODE_MULTISHARE + tail;
    AcceptedExactly(stored, asked, project);
    assert |asked| == |stored| + 2;
  }

  /** The driver's own id is the one its parser takes apart. */
  lemma VolumeIdRoundTrip(mode: string, location: string, name: string, volume: string, project: string)
    requires '/' !in mode && '/' !in location && '/' !in name && '/' !in volume
    ensures GatherBackupInfo(Join([mode, location, name, volume], '/'), project)
         == Ok(BackupInfo(Join([mode, location, name, volume], '/'), project, location, volume, name))
  {
    SplitJoin([mode, location, name, volume], '/');
  }

  // Object names derived from volume names and URIs.

  function Lower(s: string): (r: string)
    ensures |r| == |s|
  {
    seq(|s|, i requires 0 <= i < |s| => if 'A' <= s[i] <= 'Z' then s[i] - 'A' + 'a' else s[i])
  }

  function ShareNameOfVolume(volume: string): string {
    Replace(Lower(volume), '-', '_')
  }

  function ShareInfoNameOfShare(share: string): string {
    Replace(share, '_', '-')
  }

  /** A ShareInfo named after its volume is found again from its share's name exactly for names
      without upper-case letters and underscores. */
  lemma ShareInfoNameRoundTrip(volume: string)
    ensures ShareInfoNameOfShare(ShareNameOfVolume(volume)) == volume
       <==> forall i | 0 <= i < |volume| :: volume[i] != '_' && !('A' <= volume[i] <= 'Z')
  {
    var back := ShareInfoNameOfShare(ShareNameOfVolume(volume));
    if i :| 0 <= i < |volume| && (volume[i] == '_' || 'A' <= volume[i] <= 'Z') {
      assert back[i] != volume[i];
    }
  }

  function InstanceInfoNameOfUri(uri: string): string {
    Replace(uri, '/', '.')
  }

  function UriOfInstanceInfoName(name: string): string {
    Replace(name, '.', '/')
  }

  /** An InstanceInfo's name leads back to its URI exactly when the URI has no dot. */
  lemma InstanceInfoNameRoundTrip(uri: string)
    ensures UriOfInstanceInfoName(InstanceInfoNameOfUri(uri)) == uri <==> '.' !in uri
  {
    ReplaceRoundTrip(uri, '/', '.');
  }
}

/** The firmware update entity of the current integration
    (custom_components/iotix/update.py): what it remembers of the latest
    release, which version it reports, and the in-progress flag around an
    install. The HTTP exchanges are inputs; the firmware bytes are not modelled. */
module FirmwareUpdate {
  import opened Json
  import opened Text
  import opened Records
  import opened Coordinator

  /** One asset of a release. */
  datatype Asset = Asset(name: Option<string>, downloadUrl: Option<string>)

  /** The release record the release API returns. */
  datatype Release = Release(tagName: Field<string>, htmlUrl: Option<string>, body: Field<string>, assets: Field<seq<Asset>>)

  /** What the entity remembers of the latest release. */
  datatype ReleaseInfo = ReleaseInfo(latestVersion: Option<string>, releaseUrl: Option<string>, releaseNotes: Option<string>)

  const FirmwareAssetName := "firmware.bin"

  /** The download URL of the first asset named `firmware.bin`, if any. */
  function FirmwareAssetUrl(assets: seq<Asset>): (url: Option<Option<string>>)
    ensures url.Some? <==> exists i :: 0 <= i < |assets| && assets[i].name == Some(FirmwareAssetName)
    ensures url.Some? ==> exists i :: (0 <= i < |assets| && assets[i].name == Some(FirmwareAssetName)
      && url.value == assets[i].downloadUrl
      && forall j :: 0 <= j < i ==> assets[j].name != Some(FirmwareAssetName))
    decreases |assets|
  {
    if assets == [] then None
    else if assets[0].name == Some(FirmwareAssetName) then Some(assets[0].downloadUrl)
    else
      var rest := FirmwareAssetUrl(assets[1..]);
      assert forall i :: 0 <= i < |assets[1..]| ==> assets[1..][i] == assets[i + 1];
      rest
  }

  /** The remembered release after one check. A failed request, or a null
      `tag_name` (whose `lstrip` raises before anything is assigned), leaves it
      unchanged. A null `assets` raises after the three assignments, so it
      acts as an empty list. */
  function AfterCheck(before: ReleaseInfo, reply: Response<Release>): (after: ReleaseInfo)
    ensures !reply.IsOk() || reply.body.tagName.Null? ==> after == before
    ensures reply.IsOk() && !reply.body.tagName.Null? ==>
      && after.latestVersion == Some(StripLeadingV(reply.body.tagName.Get("").value))
      && after.releaseNotes == reply.body.body.Get("")
      && (FirmwareAssetUrl(Items(reply.body.assets.Peek())).Some? ==>
            after.releaseUrl == FirmwareAssetUrl(Items(reply.body.assets.Peek())).value)
      && (FirmwareAssetUrl(Items(reply.body.assets.Peek())).None? ==> after.releaseUrl == reply.body.htmlUrl)
  {
    if !reply.IsOk() then before
    else
      var data := reply.body;
      match data.tagName.Get("")
      case None => before
      case Some(tag) =>
        var url := match FirmwareAssetUrl(Items(data.assets.Peek()))
          case Some(u) => u
          case None => data.htmlUrl;
        ReleaseInfo(Some(StripLeadingV(tag)), url, data.body.Get(""))
  }

  /** A check reads no remembered state: repeating it with the same reply
      changes nothing. */
  lemma AfterCheckIdempotent(before: ReleaseInfo, reply: Response<Release>)
    ensures AfterCheck(AfterCheck(before, reply), reply) == AfterCheck(before, reply)
  {
  }

  /** The remembered version never starts with 'v'. */
  lemma CheckedVersionHasNoV(before: ReleaseInfo, reply: Response<Release>)
    requires reply.IsOk() && reply.body.tagName.Present?
    ensures AfterCheck(before, reply).latestVersion.Some?
    ensures var v := AfterCheck(before, reply).latestVersion.value; v == [] || v[0] != 'v'
  {
  }

  /** `installed_version`: the controller's `firmware_version`. */
  function InstalledVersion(data: Snapshot): Option<string> {
    data.deviceInfo.firmwareVersion
  }

  /** After a successful poll the installed version is the `firmware_version`
      of the info reply, and with nothing remembered it is also the latest. */
  lemma InstalledVersionFromPoll(r: PollReplies, remembered: Option<string>)
    requires Poll(r).Refreshed?
    ensures InstalledVersion(Poll(r).snapshot) == r.info.body.firmwareVersion
    ensures remembered.None? || remembered == Some("") ==>
      LatestVersion(remembered, Poll(r).snapshot) == r.info.body.firmwareVersion
  {
  }

  /** `latest_version`: the remembered version unless it is None or empty,
      else the installed one. */
  function LatestVersion(remembered: Option<string>, data: Snapshot): (version: Option<string>)
    ensures remembered.Some? && remembered.value != "" ==> version == remembered
    ensures remembered.None? || remembered == Some("") ==> version == InstalledVersion(data)
  {
    if remembered.Some? && remembered.value != "" then remembered else InstalledVersion(data)
  }

  /** Before any successful check the entity reports the installed version. */
  lemma NoCheckReportsInstalled(data: Snapshot)
    ensures LatestVersion(ReleaseInfo(None, None, None).latestVersion, data) == InstalledVersion(data)
  {
  }

  /** `if not self._release_url`: None and "" both stop an install. */
  predicate HasReleaseUrl(url: Option<string>) {
    url.Some? && url.value != ""
  }

  class UpdateEntity {
    var latestVersion: Option<string>
    var releaseUrl: Option<string>
    var releaseNotes: Option<string>
    var inProgress: bool
    /** The `in_progress` value at each `async_write_ha_state`, in order. */
    var stateWrites: seq<bool>
    /** The URLs firmware was downloaded from, in order. */
    var downloads: seq<string>
    /** How many uploads to the controller were attempted. */
    var uploads: nat

    constructor ()
      ensures latestVersion == None && releaseUrl == None && releaseNotes == None
      ensures !inProgress && stateWrites == [] && downloads == [] && uploads == 0
    {
      latestVersion, releaseUrl, releaseNotes := None, None, None;
      inProgress, stateWrites, downloads, uploads := false, [], [], 0;
    }

    function Remembered(): ReleaseInfo
      reads this
    {
      ReleaseInfo(latestVersion, releaseUrl, releaseNotes)
    }

    /** `async_check_for_update`. */
    method CheckForUpdate(reply: Response<Release>)
      modifies this`latestVersion, this`releaseUrl, this`releaseNotes
      ensures Remembered() == AfterCheck(old(Remembered()), reply)
    {
      if !(reply.Reply? && reply.status == 200) {
        return;
      }
      var data := reply.body;
      var tag := data.tagName.Get("");
      if tag.None? {
        return;
      }
      latestVersion := Some(StripLeadingV(tag.value));
      releaseUrl := data.htmlUrl;
      releaseNotes := data.body.Get("");
      var assets := Items(data.assets.Peek());
      var i := 0;
      while i < |assets|
        invariant 0 <= i <= |assets|
        invariant FirmwareAssetUrl(assets) == FirmwareAssetUrl(assets[i..])
        invariant releaseUrl == data.htmlUrl
      {
        assert assets[i..][1..] == assets[i + 1..];
        if assets[i].name == Some(FirmwareAssetName) {
          releaseUrl := assets[i].downloadUrl;
          return;
        }
        i := i + 1;
      }
    }

    /** `async_install`: without a release URL nothing happens; otherwise
        `in_progress` is set, then cleared on every way out, and the
        coordinator is refreshed only after a successful download and upload. */
    method Install(coordinator: AdamCoordinator, download: WriteResult, upload: WriteResult)
      modifies this`inProgress, this`stateWrites, this`downloads, this`uploads, coordinator`refreshRequests
      ensures !HasReleaseUrl(releaseUrl) ==>
        && inProgress == old(inProgress) && stateWrites == old(stateWrites)
        && downloads == old(downloads) && uploads == old(uploads)
        && coordinator.refreshRequests == old(coordinator.refreshRequests)
      ensures HasReleaseUrl(releaseUrl) ==>
        && !inProgress && stateWrites == old(stateWrites) + [true, false]
        && downloads == old(downloads) + [releaseUrl.value]
        && uploads == old(uploads) + (if download.IsOk() then 1 else 0)
        && coordinator.refreshRequests == old(coordinator.refreshRequests) + (if download.IsOk() && upload.IsOk() then 1 else 0)
    {
      if releaseUrl.None? || releaseUrl.value == "" {
        return;
      }
      inProgress := true;
      stateWrites := stateWrites + [inProgress];
      downloads := downloads + [releaseUrl.value];
      if download.TransportFailure? || download.status != 200 {
        inProgress := false;
        stateWrites := stateWrites + [inProgress];
        return;
      }
      uploads := uploads + 1;
      if upload.Answered? && upload.status == 200 {
        inProgress := false;
        stateWrites := stateWrites + [inProgress];
        coordinator.RequestRefresh();
      } else {
        inProgress := false;
        stateWrites := stateWrites + [inProgress];
      }
    }
  }
}

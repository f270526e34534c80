/** ptz_cam_sync.py: the settings lookups of PTZCamSync, the camera preset URL
    and the order of change_scene's effects, and the main block's choice of
    which presets get a button. */
module CamSync {
  import opened Wrappers
  import opened PyBuiltins

  /** One entry of a camera's "presets" list in settings.json. */
  datatype Preset = Preset(presetNum: int, obsScene: string)

  /** One entry of the "cameras" list in settings.json. */
  datatype Camera = Camera(id: int, address: string, presets: seq<Preset>)

  /** The parts of settings.json the program reads. */
  datatype Settings = Settings(password: string, cameras: seq<Camera>)

  /** A scene as OBS lists it. */
  datatype ObsScene = ObsScene(name: string)

  /** What change_scene does outside the program, in order. */
  datatype Effect =
    | SetCurrentScene(scene: string)  // the OBS websocket request
    | HttpPost(url: string)           // the request to the camera

  /** A preset button: the four arguments its command passes to change_scene. */
  datatype SceneButton = SceneButton(cameraId: int, presetNum: int, scene: string, address: string)

  // ---------------------------------------------------------------------------
  // Lookups

  /** The loop of `_get_camera`: the first camera with the id, or None. */
  function FindCamera(cameras: seq<Camera>, cameraId: int): (r: Option<Camera>)
    ensures r.Some? ==> r.value in cameras && r.value.id == cameraId
    ensures r.None? <==> forall i :: 0 <= i < |cameras| ==> cameras[i].id != cameraId
  {
    if cameras == [] then None
    else if cameras[0].id == cameraId then Some(cameras[0])
    else
      var r := FindCamera(cameras[1..], cameraId);
      assert forall i :: 1 <= i < |cameras| ==> cameras[i] == cameras[1..][i - 1];
      r
  }

  /** Of several cameras with the id, the first in settings order is found. */
  lemma {:induction false} FindCameraFirst(cameras: seq<Camera>, cameraId: int, k: nat)
    requires k < |cameras| && cameras[k].id == cameraId
    requires forall j :: 0 <= j < k ==> cameras[j].id != cameraId
    ensures FindCamera(cameras, cameraId) == Some(cameras[k])
  {
    if k > 0 {
      FindCameraFirst(cameras[1..], cameraId, k - 1);
    }
  }

  /** The loop of `_get_scene_for_preset`: the scene of the first preset with
      the number, or None. */
  function FindScene(presets: seq<Preset>, presetNum: int): (r: Option<string>)
    ensures r.Some? ==> exists i :: 0 <= i < |presets| && presets[i].presetNum == presetNum && presets[i].obsScene == r.value
    ensures r.None? <==> forall i :: 0 <= i < |presets| ==> presets[i].presetNum != presetNum
  {
    if presets == [] then None
    else if presets[0].presetNum == presetNum then Some(presets[0].obsScene)
    else
      var r := FindScene(presets[1..], presetNum);
      assert forall i :: 1 <= i < |presets| ==> presets[i] == presets[1..][i - 1];
      r
  }

  /** Of several presets with the number, the first one's scene is found. */
  lemma {:induction false} FindSceneFirst(presets: seq<Preset>, presetNum: int, k: nat)
    requires k < |presets| && presets[k].presetNum == presetNum
    requires forall j :: 0 <= j < k ==> presets[j].presetNum != presetNum
    ensures FindScene(presets, presetNum) == Some(presets[k].obsScene)
  {
    if k > 0 {
      FindSceneFirst(presets[1..], presetNum, k - 1);
    }
  }

  // ---------------------------------------------------------------------------
  // The camera preset URL

  const UrlScheme: string := "http://"
  const UrlPath: string := "/cgi-bin/ptzctrl.cgi?ptzcmd&poscall&"

  /** `camera_preset_url.format(address=address, preset_num=preset_num)`. */
  function PresetUrl(address: string, presetNum: int): string {
    UrlScheme + address + UrlPath + IntToDecimal(presetNum)
  }

  /** The URL is the scheme, the address, the fixed path and the preset number
      in decimal, and the number can be read back from what follows the path. */
  lemma PresetUrlParts(address: string, presetNum: int)
    ensures var url, p := PresetUrl(address, presetNum), |UrlScheme| + |address| + |UrlPath|;
      && p < |url|
      && url[..p] == "http://" + address + "/cgi-bin/ptzctrl.cgi?ptzcmd&poscall&"
      && DecimalDenotes(url[p..], presetNum)
  {
    var url, p := PresetUrl(address, presetNum), |UrlScheme| + |address| + |UrlPath|;
    assert url == (UrlScheme + address + UrlPath) + IntToDecimal(presetNum);
    assert url[..p] == UrlScheme + address + UrlPath;
    assert url[p..] == IntToDecimal(presetNum);
    DecimalRoundTrip(presetNum);
  }

  // ---------------------------------------------------------------------------
  // PTZCamSync

  /** The program's state: the loaded settings, the names of the scenes OBS
      reported, and the requests sent so far. Loading settings.json and
      connecting to OBS happen outside; their results are the constructor's
      arguments. */
  class PtzCamSync {
    const settings: Settings
    const obsScenes: seq<string>
    var effects: seq<Effect>

    /** `__init__`: `obs_scenes` lists the scene names in OBS's order. */
    constructor (settings: Settings, scenes: seq<ObsScene>)
      ensures this.settings == settings
      ensures |obsScenes| == |scenes| && forall i :: 0 <= i < |scenes| ==> obsScenes[i] == scenes[i].name
      ensures effects == []
    {
      this.settings := settings;
      obsScenes := seq(|scenes|, i requires 0 <= i < |scenes| => scenes[i].name);
      effects := [];
    }

    /** `get_all_cameras`: a copy of the configured cameras, in order. */
    function GetAllCameras(): (r: seq<Camera>)
      ensures r == settings.cameras
    {
      seq(|settings.cameras|, i requires 0 <= i < |settings.cameras| => settings.cameras[i])
    }

    /** `_get_camera`. */
    function GetCamera(cameraId: int): Option<Camera> {
      FindCamera(settings.cameras, cameraId)
    }

    /** `_get_scene_for_preset`: subscripting the None of a missing camera
        raises TypeError; otherwise the scene of the camera's first preset with
        the number, or None. */
    function GetSceneForPreset(cameraId: int, presetNum: int): (r: Result<Option<string>, PyError>)
      ensures r.Err? <==> forall i :: 0 <= i < |settings.cameras| ==> settings.cameras[i].id != cameraId
      ensures r.Err? ==> r.error == TypeError
      ensures r.Ok? && r.value.Some? ==>
        exists c, p :: c in settings.cameras && c.id == cameraId && p in c.presets &&
          p.presetNum == presetNum && p.obsScene == r.value.value
    {
      match GetCamera(cameraId)
      case None => Err(TypeError)
      case Some(camera) => Ok(FindScene(camera.presets, presetNum))
    }

    /** `change_scene`: the OBS scene change first, then the camera request,
        whose answer is only reported and changes nothing. */
    method ChangeScene(cameraId: int, presetNum: int, scene: string, address: string)
      modifies this
      ensures effects == old(effects) + [SetCurrentScene(scene), HttpPost(PresetUrl(address, presetNum))]
    {
      effects := effects + [SetCurrentScene(scene)];
      var url := PresetUrl(address, presetNum);
      effects := effects + [HttpPost(url)];
    }
  }

  /** The camera-then-preset search of `_get_scene_for_preset`, stated on the
      settings: the first camera with the id and, in it, the first preset with
      the number. */
  lemma GetSceneForPresetFirst(app: PtzCamSync, cameraId: int, presetNum: int, k: nat, m: nat)
    requires k < |app.settings.cameras| && app.settings.cameras[k].id == cameraId
    requires forall j :: 0 <= j < k ==> app.settings.cameras[j].id != cameraId
    requires m < |app.settings.cameras[k].presets| && app.settings.cameras[k].presets[m].presetNum == presetNum
    requires forall j :: 0 <= j < m ==> app.settings.cameras[k].presets[j].presetNum != presetNum
    ensures app.GetSceneForPreset(cameraId, presetNum) == Ok(Some(app.settings.cameras[k].presets[m].obsScene))
  {
    FindCameraFirst(app.settings.cameras, cameraId, k);
    FindSceneFirst(app.settings.cameras[k].presets, presetNum, m);
  }

  /** The None result of `_get_scene_for_preset`: the first camera with the id
      has no preset with the number, whatever later cameras with the same id
      hold. */
  lemma GetSceneForPresetNone(app: PtzCamSync, cameraId: int, presetNum: int, k: nat)
    requires k < |app.settings.cameras| && app.settings.cameras[k].id == cameraId
    requires forall j :: 0 <= j < k ==> app.settings.cameras[j].id != cameraId
    requires forall j :: 0 <= j < |app.settings.cameras[k].presets| ==> app.settings.cameras[k].presets[j].presetNum != presetNum
    ensures app.GetSceneForPreset(cameraId, presetNum) == Ok(None)
  {
    FindCameraFirst(app.settings.cameras, cameraId, k);
  }

  // ---------------------------------------------------------------------------
  // The buttons of the main window

  function ButtonOf(camera: Camera, preset: Preset): SceneButton {
    SceneButton(camera.id, preset.presetNum, preset.obsScene, camera.address)
  }

  /** The buttons of one camera's presets: those whose scene OBS knows. */
  function PresetButtons(camera: Camera, presets: seq<Preset>, obsScenes: seq<string>): seq<SceneButton> {
    if presets == [] then []
    else (if presets[0].obsScene in obsScenes then [ButtonOf(camera, presets[0])] else [])
         + PresetButtons(camera, presets[1..], obsScenes)
  }

  /** The buttons of all cameras, camera by camera. */
  function ButtonsFor(cameras: seq<Camera>, obsScenes: seq<string>): seq<SceneButton> {
    if cameras == [] then []
    else PresetButtons(cameras[0], cameras[0].presets, obsScenes) + ButtonsFor(cameras[1..], obsScenes)
  }

  /** Buttons of consecutive presets follow each other. */
  lemma {:induction false} PresetButtonsAppend(camera: Camera, ps: seq<Preset>, qs: seq<Preset>, obsScenes: seq<string>)
    ensures PresetButtons(camera, ps + qs, obsScenes) ==
      PresetButtons(camera, ps, obsScenes) + PresetButtons(camera, qs, obsScenes)
  {
    if ps == [] {
      assert ps + qs == qs;
    } else {
      assert (ps + qs)[1..] == ps[1..] + qs;
      PresetButtonsAppend(camera, ps[1..], qs, obsScenes);
    }
  }

  /** Buttons of consecutive cameras follow each other. */
  lemma {:induction false} ButtonsForAppend(cs: seq<Camera>, ds: seq<Camera>, obsScenes: seq<string>)
    ensures ButtonsFor(cs + ds, obsScenes) == ButtonsFor(cs, obsScenes) + ButtonsFor(ds, obsScenes)
  {
    if cs == [] {
      assert cs + ds == ds;
    } else {
      assert (cs + ds)[1..] == cs[1..] + ds;
      ButtonsForAppend(cs[1..], ds, obsScenes);
    }
  }

  /** A preset gets a button exactly when its scene is one OBS knows. */
  ghost predicate Qualifies(cameras: seq<Camera>, obsScenes: seq<string>, b: SceneButton) {
    exists i, j :: 0 <= i < |cameras| && 0 <= j < |cameras[i].presets| &&
      cameras[i].presets[j].obsScene in obsScenes && b == ButtonOf(cameras[i], cameras[i].presets[j])
  }

  lemma {:induction false} PresetButtonsMembership(camera: Camera, presets: seq<Preset>, obsScenes: seq<string>, b: SceneButton)
    ensures b in PresetButtons(camera, presets, obsScenes) <==>
      exists j :: 0 <= j < |presets| && presets[j].obsScene in obsScenes && b == ButtonOf(camera, presets[j])
  {
    if presets != [] {
      PresetButtonsMembership(camera, presets[1..], obsScenes, b);
      assert forall j :: 1 <= j < |presets| ==> presets[j] == presets[1..][j - 1];
      if b in PresetButtons(camera, presets[1..], obsScenes) {
        var j :| 0 <= j < |presets[1..]| && presets[1..][j].obsScene in obsScenes && b == ButtonOf(camera, presets[1..][j]);
        assert presets[j + 1] == presets[1..][j];
      }
    }
  }

  /** A button is made for exactly the presets whose scene OBS knows. */
  lemma {:induction false} ButtonsMembership(cameras: seq<Camera>, obsScenes: seq<string>, b: SceneButton)
    ensures b in ButtonsFor(cameras, obsScenes) <==> Qualifies(cameras, obsScenes, b)
  {
    if cameras != [] {
      ButtonsMembership(cameras[1..], obsScenes, b);
      PresetButtonsMembership(cameras[0], cameras[0].presets, obsScenes, b);
      if b in ButtonsFor(cameras[1..], obsScenes) {
        var i, j :| 0 <= i < |cameras[1..]| && 0 <= j < |cameras[1..][i].presets| &&
          cameras[1..][i].presets[j].obsScene in obsScenes && b == ButtonOf(cameras[1..][i], cameras[1..][i].presets[j]);
        assert cameras[i + 1] == cameras[1..][i];
      }
      if Qualifies(cameras, obsScenes, b) {
        var i, j :| 0 <= i < |cameras| && 0 <= j < |cameras[i].presets| &&
          cameras[i].presets[j].obsScene in obsScenes && b == ButtonOf(cameras[i], cameras[i].presets[j]);
        if i > 0 {
          assert cameras[1..][i - 1] == cameras[i];
        }
      }
    }
  }

  /** No button at all exactly when no preset's scene is one OBS knows. */
  lemma NoButtonsIff(cameras: seq<Camera>, obsScenes: seq<string>)
    ensures ButtonsFor(cameras, obsScenes) == [] <==>
      forall i, j :: 0 <= i < |cameras| && 0 <= j < |cameras[i].presets| ==>
        cameras[i].presets[j].obsScene !in obsScenes
  {
    var bs := ButtonsFor(cameras, obsScenes);
    if bs != [] {
      ButtonsMembership(cameras, obsScenes, bs[0]);
    }
    forall i, j | 0 <= i < |cameras| && 0 <= j < |cameras[i].presets| && cameras[i].presets[j].obsScene in obsScenes
      ensures bs != []
    {
      ButtonsMembership(cameras, obsScenes, ButtonOf(cameras[i], cameras[i].presets[j]));
    }
  }

  /** The main block's nested loops: a button for each preset whose scene OBS
      knows, camera by camera and preset by preset; with none, the program
      exits. */
  method BuildButtons(app: PtzCamSync) returns (buttons: seq<SceneButton>, exits: bool)
    ensures buttons == ButtonsFor(app.settings.cameras, app.obsScenes)
    ensures exits <==> forall i, j :: 0 <= i < |app.settings.cameras| && 0 <= j < |app.settings.cameras[i].presets| ==>
      app.settings.cameras[i].presets[j].obsScene !in app.obsScenes
  {
    var cameras := app.GetAllCameras();
    buttons := [];
    for i := 0 to |cameras|
      invariant buttons == ButtonsFor(cameras[..i], app.obsScenes)
    {
      var camera := cameras[i];
      var presets := camera.presets;
      ghost var before := buttons;
      for j := 0 to |presets|
        invariant buttons == before + PresetButtons(camera, presets[..j], app.obsScenes)
      {
        var preset := presets[j];
        var scene := preset.obsScene;
        if scene in app.obsScenes {
          buttons := buttons + [SceneButton(camera.id, preset.presetNum, scene, camera.address)];
        }
        assert presets[..j + 1] == presets[..j] + [preset];
        PresetButtonsAppend(camera, presets[..j], [preset], app.obsScenes);
      }
      assert presets[..|presets|] == presets;
      assert cameras[..i + 1] == cameras[..i] + [camera];
      ButtonsForAppend(cameras[..i], [camera], app.obsScenes);
    }
    assert cameras[..|cameras|] == cameras;
    NoButtonsIff(cameras, app.obsScenes);
    exits := |buttons| == 0;
  }
}

# PTZCamSync preset recall, modelled in Dafny

PTZCamSync drives pan-tilt-zoom cameras from a small desktop panel. Each
button recalls a camera preset and switches the OBS scene that goes with it.
This project models the core of that program:

- `visca_commands.dfy` (module `ViscaCommands`) models `ptz_visca_commands.py`:
  - the VISCA power strings;
  - the three memory encoders. Each substitutes a preset's hex digits into a
    template `81 01 04 3F <sub> <preset> FF` and decodes it with
    `bytes.fromhex`.
- `ptz_visca.dfy` (module `PtzVisca`) models `ptz_visca.py`:
  - the `PTZCommands` constants and the two completion frames `90 51 FF` and
    `90 52 FF`;
  - the way `change_preset` derives the preset's hex digits from
    `repr(chr(n))`;
  - the class `ViscaSocket` (`PTZViscaSocket`), with its `is_connected` flag,
    `change_preset` and its receive loop, `is_my_socket` and `close`.
- `cam_sync.dfy` (module `CamSync`) models `ptz_cam_sync.py`:
  - the settings lookups `_get_camera` and `_get_scene_for_preset`;
  - `get_all_cameras`;
  - the camera HTTP preset URL and the order of `change_scene`'s two
    requests;
  - the main block's nested loops, which give a button to each preset whose
    scene OBS knows.
- `py_builtins.dfy` (module `PyBuiltins`) holds the Python built-ins the code
  relies on, as CPython defines them: `bytes.fromhex`, `repr(chr(n))` for
  ASCII, `str.strip`, the slice `s[k:]` and `str(int)`. It adds `bytes.hex`
  as the partner `bytes.fromhex` is checked against, and the slice `s[:k]`
  as the partner of `s[k:]`.
- `wrappers.dfy` holds `Option` and `Result`.

The socket is an abstract environment:

- whether `connect` succeeds is a constructor argument;
- whether a `send` succeeds is an argument of `ChangePreset`. A send on a
  closed socket always fails, because Python raises `OSError` there;
- `recv(1024)` hands out the chunks in the field `incoming`, oldest first.
  The camera's reply chunks are appended after a successful send. When no
  chunk is left, `recv` times out and raises.

Python's exceptions appear as `Raised(e)` in `PtzVisca.Outcome`, or as
`Err(e)` in a `Result`.

The model follows the code as written:

- The code never reconnects. `change_preset` does not read `is_connected`.
- `close` leaves `is_connected` as it was.
- The code does not classify device error frames. `change_preset` returns
  True when some received chunk is exactly `90 51 FF` or `90 52 FF`.
  Otherwise the call ends with `recv`'s timeout exception, which is not
  caught. It never returns False after a successful send: the `return False`
  after the loop (`ptz_visca.py:65`) cannot be reached.
- `ViscaSocket.ChangePreset` sends what the code builds, using the
  repr-derived digits (see Findings). The corrected encoder
  `PtzVisca.RecallFrame` stands beside it and is not used by the class.

## Model

| member | source | states |
|---|---|---|
| `PyBuiltins.FromHex` | ptz_visca_commands.py:8 | `bytes.fromhex` fails only with ValueError. A success yields at most one byte per two characters. |
| `PyBuiltins.FromHexToHex` | ptz_visca_commands.py:8 | Decoding what `bytes.hex()` wrote gives back the same bytes. |
| `PyBuiltins.FromHexOfHexText` | ptz_visca_commands.py:8 | A text of hex-digit pairs decodes to half as many bytes. Written back, those bytes give the text in lower case. |
| `PyBuiltins.FromHexConcat` | ptz_visca_commands.py:8 | A hex-pair prefix decodes on its own, in front of whatever the rest decodes to, and the rest's failure is the whole call's failure. |
| `PyBuiltins.FromHexRejects` | ptz_visca.py:48 | Any character that is neither a hex digit nor ASCII whitespace makes `bytes.fromhex` raise ValueError. |
| `PyBuiltins.ReprChr` | ptz_visca.py:47 | `repr(chr(n))` for n < 128 is 3 to 6 characters long. |
| `PyBuiltins.Strip` | ptz_visca.py:47 | `s.strip(c)` is no longer than s and neither starts nor ends with c. |
| `PyBuiltins.StripInfix` | ptz_visca.py:47 | `s.strip(c)` is an infix of s, and every character cut from either end is c. |
| `PyBuiltins.SliceSplit` | ptz_visca.py:47 | `s[:k] + s[k:] == s` for every s and k; the head holds the first min(k, len(s)) characters, so `s[k:]` holds the rest, and is "" when s is shorter than k. |
| `PyBuiltins.IntToDecimal` | ptz_cam_sync.py:59 | `str(n)` is non-empty and starts with a minus sign exactly when n is negative. |
| `PyBuiltins.DecimalRoundTrip` | ptz_cam_sync.py:59 | The digits of `str(n)` read back as n, after the minus sign when n is negative. |
| `ViscaCommands.TemplateHeadDecodes` | ptz_visca_commands.py:8-16 | Each template's fixed head decodes to `81 01 04 3F` and that operation's sub-command byte: 00 reset, 01 set, 02 recall. Each template ends in `FF`. |
| `ViscaCommands.FormatDecodes` | ptz_visca_commands.py:8-16 | For any substituted text, the frame is the head's five bytes followed by what the rest decodes to, or the rest's error. |
| `ViscaCommands.MemoryEncoding` | ptz_visca_commands.py:8-16 | Hex-pair text gives the memory frame with its bytes as the parameter. A character that is neither hex digit nor whitespace gives ValueError. |
| `ViscaCommands.MemoryEncodingRejects` | ptz_visca_commands.py:8-16 | A non-hex, non-whitespace character anywhere in the substituted text makes the encoder raise ValueError. |
| `ViscaCommands.MemoryRecall` | ptz_visca_commands.py:6-8 | `CAM_Memory_Recall(h)` is `81 01 04 3F 02` + bytes of h + `FF` for hex-pair text h. It is ValueError when h holds a character that is neither a hex digit nor ASCII whitespace. |
| `ViscaCommands.MemoryReset` | ptz_visca_commands.py:10-12 | The same as recall, with sub-command `00`. |
| `ViscaCommands.MemorySet` | ptz_visca_commands.py:14-16 | The same as recall, with sub-command `01`. |
| `ViscaCommands.RecallOfHexPair` | ptz_visca_commands.py:7-8 | For two hex digits h, the recall frame is 7 bytes `81 01 04 3F 02 h FF`. Byte 5, written back as hex, is h up to letter case. |
| `ViscaCommands.EncodersDifferOnlyInSubCommand` | ptz_visca_commands.py:6-16 | For every text, the three encoders fail or succeed together. Their frames have equal length of at least 6 and agree on every byte except index 4, which is 02, 00 and 01. |
| `ViscaCommands.FrameHeaderAndTerminator` | ptz_visca_commands.py:6-16 | For hex-pair text, every memory frame starts with `81 01 04 3F` and ends with `FF`. |
| `ViscaCommands.PowerFrames` | ptz_visca_commands.py:3-4 | Power on and off decode to the 6-byte frames `81 01 04 00 02 FF` and `81 01 04 00 03 FF`. |
| `ViscaCommands.EncoderCallAlwaysRaises` | ptz_visca_commands.py:6-16 | As declared, no encoder call yields a frame. With an argument it raises TypeError. Without one, the class's text is substituted and `fromhex` raises ValueError, whatever the module's name. |
| `PtzVisca.TemplatesDifferOnlyInSubCommand` | ptz_visca.py:6-12 | The `PTZCommands` power strings equal those of the commands file. Its set, reset and recall templates differ only in byte 4 (`01`, `00`, `02`) for every substituted text. |
| `PtzVisca.PresetHexCases` | ptz_visca.py:47 | The derived digits are the two hex digits of n exactly for n in 0-8, 11, 12, 14-31 and 127. For 39 they are `"`. For every other preset they are "". |
| `PtzVisca.EscapedPresetHex` | ptz_visca.py:47 | For a preset whose repr is a `\xhh` escape, the derivation yields those two digits. |
| `PtzVisca.UnescapedPresetHex` | ptz_visca.py:47 | For 9, 10, 13, 32-126 except 39, the derivation yields "". |
| `PtzVisca.RecallDataAsWritten` | ptz_visca.py:47-48 | The data change_preset builds: `81 01 04 3F 02 n FF` on the escaped presets; ValueError for 39; the 6-byte `81 01 04 3F 02 FF` with no preset byte otherwise. |
| `PtzVisca.RecallFrame` | ptz_visca.py:47-48 | Corrected encoder: for every preset 0-127, the frame is `81 01 04 3F 02 n FF`. |
| `PtzVisca.RecallFrameMatchesCodeOnlyOnEscapes` | ptz_visca.py:47-48 | The code's data equals the corrected frame exactly on the presets with a `\xhh` repr. |
| `PtzVisca.AwaitCompletion` | ptz_visca.py:56-63 | The loop returns True exactly when some chunk equals `90 51 FF` or `90 52 FF`. The unread chunks are then those after the first such chunk. Otherwise it raises the recv timeout with every chunk consumed. It never returns False. |
| `PtzVisca.AwaitCompletionAt` | ptz_visca.py:56-63 | When chunk k is the first completion frame, the loop returns True and leaves the chunks after k unread. |
| `PtzVisca.AwaitCompletionNone` | ptz_visca.py:56-63 | Without a completion frame, the loop consumes all chunks and times out. |
| `PtzVisca.AckAndCompletionInOneChunkTimesOut` | ptz_visca.py:58-62 | The acknowledgement and the completion arriving in one chunk (`90 41 FF 90 51 FF`) are not recognised, and the call times out. |
| `PtzVisca.StaleCompletionAnswers` | ptz_visca.py:56-63 | A completion frame left unread by an earlier call makes the next call return True, whatever the camera replies. |
| `PtzVisca.ViscaSocket.constructor` | ptz_visca.py:21-36 | The port is 5678 and the address is stored, so `IsMySocket(a)` holds exactly for that address. `is_connected` holds exactly when connecting succeeded. Nothing is sent or buffered. |
| `PtzVisca.ViscaSocket.ChangePreset` | ptz_visca.py:38-65 | Out of range: returns False and changes nothing. Digits that `fromhex` rejects: raises ValueError and changes nothing. Send fails: returns False, clears `is_connected`, no recv. Otherwise: the data is recorded as sent, `is_connected` is untouched, and the outcome and leftover chunks are those of `AwaitCompletion`. |
| `PtzVisca.ViscaSocket.SendAndAwait` | ptz_visca.py:49-63 | A failed send, or a send on a closed socket, returns False and clears `is_connected`, and nothing is received. A successful send records the data and leaves the flags alone. The outcome and leftover chunks are then those of `AwaitCompletion` over the buffer plus the camera's reply. |
| `PtzVisca.ViscaSocket.ReceiveUntilCompletion` | ptz_visca.py:56-63 | The `while not flag` loop, which builds `total_data` and tests list membership, yields exactly `AwaitCompletion` of the buffered chunks. |
| `PtzVisca.ViscaSocket.Close` | ptz_visca.py:67-69 | Closes the socket and leaves `is_connected`, the sent data and the buffer unchanged, so closing twice is harmless. |
| `CamSync.FindCamera` | ptz_cam_sync.py:74-78 | The result is a configured camera with the id. The result is None exactly when no camera has the id. |
| `CamSync.FindCameraFirst` | ptz_cam_sync.py:75-77 | Among cameras sharing an id, the first in settings order is returned. |
| `CamSync.FindScene` | ptz_cam_sync.py:82-85 | The result is the scene of a preset with the number. It is None exactly when no preset has the number. |
| `CamSync.FindSceneFirst` | ptz_cam_sync.py:82-84 | The first preset with the number supplies the scene. |
| `CamSync.PresetUrlParts` | ptz_cam_sync.py:52-59 | The URL is `http://` + address + `/cgi-bin/ptzctrl.cgi?ptzcmd&poscall&`, then the preset number in decimal, which reads back as the number. |
| `CamSync.PtzCamSync.constructor` | ptz_cam_sync.py:45-52 | Keeps the loaded settings. `obs_scenes` is the list of OBS scene names in order. No request has been made yet. |
| `CamSync.PtzCamSync.GetAllCameras` | ptz_cam_sync.py:71-72 | Every configured camera, in order. |
| `CamSync.PtzCamSync.GetSceneForPreset` | ptz_cam_sync.py:80-85 | Raises TypeError exactly when no camera has the id. Otherwise the result is None or the scene of a preset, with that number, of a camera with that id. The lemmas `GetSceneForPresetFirst` and `GetSceneForPresetNone` pin which camera and preset decide the result. |
| `CamSync.GetSceneForPresetFirst` | ptz_cam_sync.py:80-85 | The scene returned is that of the first matching preset of the first matching camera. |
| `CamSync.GetSceneForPresetNone` | ptz_cam_sync.py:80-85 | When the first camera with the id has no preset with the number, the result is None, whatever later cameras with the same id hold. |
| `CamSync.PtzCamSync.ChangeScene` | ptz_cam_sync.py:54-69 | Appends the OBS scene change, then the POST to the preset URL. Nothing depends on the camera's answer. |
| `CamSync.PresetButtonsAppend` | ptz_cam_sync.py:116-122 | Buttons for consecutive runs of presets follow each other in preset order. |
| `CamSync.ButtonsForAppend` | ptz_cam_sync.py:109-122 | Buttons for consecutive runs of cameras follow each other in camera order. |
| `CamSync.PresetButtonsMembership` | ptz_cam_sync.py:116-124 | A camera's preset gets a button exactly when its scene is one OBS lists. |
| `CamSync.ButtonsMembership` | ptz_cam_sync.py:109-124 | A button is in the list exactly when it belongs to some camera's preset whose scene OBS lists. |
| `CamSync.NoButtonsIff` | ptz_cam_sync.py:109-127 | The list is empty exactly when no preset's scene is one OBS lists. |
| `CamSync.BuildButtons` | ptz_cam_sync.py:106-127 | The nested loops build exactly the qualifying buttons, in camera-then-preset order. The program exits exactly when no preset qualifies. |

## Findings

| source | as written | input that shows it | evidently intended | confidence | as-written member | corrected member |
|---|---|---|---|---|---|---|
| ptz_visca.py:47 | The hex digits are taken from `repr(chr(preset_num)).strip("'")[2:]`, which is two digits only for `\xhh` escapes. | Preset 10 (or 65) sends the 6-byte `81 01 04 3F 02 FF` with no preset byte. Preset 39 raises an uncaught ValueError. | The two hex digits of the preset, `format(preset_num, '02x')`, giving `81 01 04 3F 02 n FF` for every preset 0-127. | high; not executed | `PtzVisca.RecallDataAsWritten` | `PtzVisca.RecallFrame` |
| ptz_visca_commands.py:6-16 | The encoders are `classmethod`s whose only parameter receives the class. | `CAM_Memory_Recall("05")` raises TypeError. `CAM_Memory_Recall()` decodes the class's text and raises ValueError. | Encoders taking the preset's hex text, as the body's `format` call shows. | high; not executed | `ViscaCommands.EncoderCallAlwaysRaises` | `ViscaCommands.MemoryRecall` |

`ViscaSocket.ChangePreset` deliberately keeps the as-written digits, so that
the class does what `change_preset` does.

## Left out

- `obs_handler.py` and `OBSWebsocketHandler`: thin wrappers over the OBS
  websocket library. The scene change is only the `SetCurrentScene` effect.
  A failure of that request, which would stop `change_scene` before the
  camera request, is not modelled.
- The Tkinter window, frames, fonts, colours and sizing. Only the choice and
  order of the buttons is kept, with each button's bound `change_scene`
  arguments.
- Loading `settings.json` and locating it for a frozen executable: file I/O.
  The loaded settings are the constructor's argument. Camera ids are
  integers here, since the settings file is not part of this model.
- The HTTP POST itself, its 0.001 s timeout, its status code and its
  exceptions. These are only printed. The request is the `HttpPost` effect.
- Socket creation, `settimeout(10)` and blocking. A `recv` with nothing
  buffered stands for the timeout exception. A peer that closes the
  connection makes the real `recv` return empty chunks forever, so the real
  loop spins without end. A finite chunk list cannot show that.
- Errors of `recv` other than the timeout, such as `ConnectionResetError`
  when the camera resets the connection. They also escape `change_preset`
  uncaught. The model has only the timeout.
- `socket.send` may write only part of the data. The model treats a send as
  all or nothing.
- Whether a send fails after a failed connect is left to the environment
  argument. The model does not tie it to `is_connected`.
- The position that `bytes.fromhex`'s ValueError message reports.
- All printed diagnostics.

/** The wire types and limits of portus-window-protocol that the models use. */
module Protocol {
  import opened Wrappers

  const MAX_FRAME_BYTES: nat := 64 * 1024
  const MAX_DESCRIPTION_CHARS: nat := 256
  const MAX_TITLE_CHARS: nat := 1024
  const MAX_URL_CHARS: nat := 4096
  const MAX_CONSOLE_ENTRIES: nat := 50
  const MAX_LOAD_ERROR_CHARS: nat := 1024
  const MAX_URL_HISTORY_ENTRIES: nat := 128
  const MAX_URL_HISTORY_BYTES: nat := 32 * 1024
  const MAX_WORKSPACE_HISTORY_ENTRIES: nat := 128
  const MAX_HISTORY_RESULT_BYTES: nat := 48 * 1024
  const MAX_RETENTION_DAYS: nat := 3650
  const PROTOCOL_VERSION: nat := 7

  datatype SourceKind = Web | LocalMedia
  datatype ContentKind = WebContent | Image | Video | Audio
  datatype LoadState = Started | Loaded | Failed
  datatype CloseReason = Explicit | Destroyed | AbruptTermination
  datatype WindowStateAction = Maximize | Minimize | Restore | Fullscreen
  datatype ConsoleLevel = Debug | Log | Info | Warn | Error
  datatype ConsoleEntry = ConsoleEntry(level: ConsoleLevel, message: string, source: Option<string>, line: Option<nat>)
  datatype MediaState = MediaState(playing: bool, paused: bool, ended: bool, durationSeconds: Option<real>,
                                   positionSeconds: Option<real>, volume: Option<real>, error: Option<string>)
  datatype MediaAction = Play | Pause | Seek(seconds: real) | SetVolume(level: real)

  /** `ActiveWindow`, its flat fields grouped by what changes them together. */
  datatype Page = Page(currentUrl: Option<string>, urlHistory: Option<seq<string>>, urlHistoryTruncated: Option<bool>,
                       title: string, loadState: LoadState, loadError: Option<string>)
  datatype ConsoleBuffer = ConsoleBuffer(errors: seq<ConsoleEntry>, truncated: bool)
  datatype Geometry = Geometry(width: nat, height: nat, x: int, y: int,
                               isMaximized: bool, isMinimized: bool, isAlwaysOnTop: bool)
  datatype Desk = Desk(workspace: Option<nat>, isOnAllWorkspaces: bool, history: seq<nat>, historyTruncated: bool)
  datatype ActiveWindow = ActiveWindow(
    windowSessionId: string,
    sourceKind: SourceKind,
    contentKind: ContentKind,
    requestedSource: string,
    renderedUrl: Option<string>,
    description: Option<string>,
    profile: Option<string>,
    authenticated: Option<bool>,
    mediaState: Option<MediaState>,
    isFocused: bool,
    page: Page,
    console: ConsoleBuffer,
    geometry: Geometry,
    desk: Desk)

  datatype OpenSource = WebSource(url: string) | LocalMediaSource(path: string)
  datatype WorkspaceTarget = Index(index: nat) | Name(name: string)
  datatype WindowGeometrySpec = WindowGeometrySpec(
    width: Option<nat>, height: Option<nat>, x: Option<int>, y: Option<int>,
    state: Option<WindowStateAction>, alwaysOnTop: Option<bool>, workspace: Option<WorkspaceTarget>)
  datatype WindowSpec = WindowSpec(
    name: Option<string>, source: OpenSource, description: Option<string>, profile: Option<string>,
    geometry: Option<WindowGeometrySpec>, media: Option<MediaAction>)
}

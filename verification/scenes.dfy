/** Scene keys and the effects a button handler can have. */
module Scenes {

  /** What one click of a button does: start a scene, write to the console,
      write an error line (`console.error(prefix, detail)`),
      or throw out of the handler. */
  datatype Effect = Start(key: string) | Log(message: string) | LogError(prefix: string, detail: string) | Throw(error: string)

  const PreloadKey: string := "PreloadScene"
  const MenuKey: string := "MenuScene"
  const PlayKey: string := "PlayScene"

  /** The keys of the scenes the game registers. */
  const Registered: set<string> := {PreloadKey, MenuKey, PlayKey}
}

/** The records and the phase enumeration the slideshow app shares between its
    component, its fetch service and its slide renderer (types.ts). */
module Types {

  /** A value that may be absent; `UserData | null` in the app's state. */
  datatype Option<+T> = None | Some(value: T)

  /** One slide of the "wrapped" story, as the generative backend returns it.
      The colours are free-form strings handed to the renderer unchecked. */
  datatype WrappedInsight = WrappedInsight(
    title: string,
    content: string,
    emoji: string,
    bgColor: string,
    textColor: string,
    accentColor: string)

  /** The fetched summary of one forum profile. Nothing upstream requires
      `insights` to be non-empty. */
  datatype UserData = UserData(
    username: string,
    profileUrl: string,
    generatedRank: string,
    insights: seq<WrappedInsight>)

  /** The four screens the app can show. */
  datatype AppState = LANDING | LOADING | EXPERIENCE | ERROR
}

/** What one tick of the user interface samples from its collaborators. */
module TickInputs {

  /** The keypad code reported when no key was released during the tick. */
  const NO_KEY: char := '\0'

  /** The key whose double release clears the incorrect-code lockout. */
  const HASH_KEY: char := '#'

  /**
   * One tick's inputs: the key the matrix keypad reports as released
   * (NO_KEY when none), the siren state, the gas detector state and the
   * temperature as the text the report screen shows.
   */
  datatype TickInput = TickInput(
    keyReleased: char,
    sirenActive: bool,
    gasDetected: bool,
    temperature: string)
}

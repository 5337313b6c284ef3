/** The user interface's page identifiers. */
module PageTypes {
  /** `ui::UIPage`, numbered in declaration order. */
  newtype UIPage = x: int | 0 <= x < 13

  const MAIN: UIPage := 0
  const STATUS: UIPage := 1
  const SETTINGS: UIPage := 2
  const CALIBRATION: UIPage := 3
  const DIAGNOSTICS: UIPage := 4
  const SENSITIVITY: UIPage := 5
  const TOUCH_MAPPING: UIPage := 6
  const KEY_MAPPING: UIPage := 7
  const GUIDED_BINDING: UIPage := 8
  const LIGHT_MAPPING: UIPage := 9
  const UART_SETTINGS: UIPage := 10
  const ERROR: UIPage := 11
  const ABOUT: UIPage := 12
}

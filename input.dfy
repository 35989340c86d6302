/** The user's commands, as the screens receive them. */
module Inputs {
  import Directions

  datatype Input = Accept | Cancel | Direction(dir: Directions.Direction) | Menu
}

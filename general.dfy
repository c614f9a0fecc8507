/** Plain record types shared by the map and the simulation (cws/general.hpp). */
module General {

  /** Coordinates of a cell on the map. */
  datatype Coordinates = Coordinates(x: int, y: int)

  /** Width and height of the map. */
  datatype Dimension = Dimension(width: int, height: int)

  datatype Percentage = Percentage(value: real)

  /** A temperature; `double` in the source, a real number here. */
  datatype Temperature = Temperature(value: real)
}

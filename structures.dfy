/**
  What the uploader reads from a parsed crystal structure: for each site,
  the element symbols of the species that occupy it, in the order the
  structure's dictionary form lists them. Parsing the file itself is a
  foreign library call and arrives as an `Option<Structure>` (None when the
  file cannot be read).
 */
module Structures {

  datatype Site = Site(species: seq<string>)

  datatype Structure = Structure(sites: seq<Site>)
}

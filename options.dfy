/** An optional value: a field the scraper or the spreadsheet service may leave out. */
module Options {
  datatype Option<+T> = None | Some(value: T)
}

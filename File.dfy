/** The record stored by the file server (File.java). */
module Files {

  /**
   * A named file. The name is the record's key and is fixed when the object is
   * made (a `const`); the content is replaced wholesale by `SetContent`.
   */
  class File {
    const name: string
    var content: string

    /** `File(name)`: a file with empty content. */
    constructor Named(name: string)
      ensures this.name == name && content == ""
    {
      this.name := name;
      content := "";
    }

    /** `File(name, content)`: both values as given. */
    constructor (name: string, content: string)
      ensures this.name == name && this.content == content
    {
      this.name := name;
      this.content := content;
    }

    method GetName() returns (n: string)
      ensures n == name
    {
      n := name;
    }

    method GetContent() returns (c: string)
      ensures c == content
    {
      c := content;
    }

    /** Replaces the content; the name cannot change (it is a `const`). */
    method SetContent(c: string)
      modifies this`content
      ensures content == c
    {
      content := c;
    }
  }
}

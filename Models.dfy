/** The plain record types of the `models` package; they carry no logic of their own. */
module Models {

  /** A Firestore document reference, identified by its path. */
  datatype DocRef = DocRef(path: string)

  /** An account, stored under its email. The hash is never sent to clients. */
  datatype User = User(email: string, passwordHash: string)

  datatype Student = Student(firstName: string, lastName: string, teacherIDs: seq<DocRef>)

  datatype Teacher = Teacher(firstName: string, lastName: string, studentIDs: seq<DocRef>)
}
